/** Words that mean a floor below ground, and the words that lose nothing in plain text. */
module FloorWords {
  import opened Prelude
  import opened Floors
  import opened TermMatching

  // ---- single floors, in any text ----

  function Floor(n: char): string { "地下" + [n] + "层" }

  lemma TokenHolds(run: string, rest: string, n: char)
    requires IsRun(run) && Contains(Token(run) + rest, Floor(n))
    ensures Number(run) == [n] || Contains(rest, Floor(n))
  {
    var t := Token(run) + rest;
    var tail := "下" + Number(run) + "层";
    assert t[1..] == tail + rest;
    if Floor(n) <= t {
      var k := Number(run);
      assert t[2] == k[0] == Floor(n)[2];
      assert t[3] == Floor(n)[3] == '层';
      assert t[3] == (k + "层")[1];
    } else {
      assert '地' !in tail;
      SkipPrefix(tail, rest, Floor(n));
    }
  }

  /** A floor in the result of the second substitution was one before, or a b-number. */
  lemma {:induction false} FloorBefore2(t: string, prev: Option<char>, n: char)
    requires '1' <= n <= '9' && Contains(Sub2(t, prev), Floor(n))
    ensures Contains(t, Floor(n)) || Contains(t, "b" + [n])
    decreases |t|
  {
    if t != [] {
      var f := Floor2(t, prev);
      if f.Some? {
        var k := 1 + |f.value|;
        TokenHolds(f.value, Sub2(t[k..], Some(t[|f.value|])), n);
        if Number(f.value) == [n] {
          assert f.value == [n];
          assert t[0..2] == "b" + [n];
          ContainsAt(t, "b" + [n], 0);
        } else {
          FloorBefore2(t[k..], Some(t[|f.value|]), n);
          FromSuffix(t, k, n);
        }
      } else {
        Sub2Copies(t, prev);
        if Floor(n) <= Sub2(t, prev) {
          PrefixTail(Floor(n), Sub2(t, prev));
          CopiedPrefix2(t[1..], Some(t[0]), Floor(n)[1..]);
          ConsPrefix(t, Floor(n));
        } else {
          FloorBefore2(t[1..], Some(t[0]), n);
          FromSuffix(t, 1, n);
        }
      }
    }
  }

  lemma FromSuffix(t: string, k: nat, n: char)
    requires k <= |t| && (Contains(t[k..], Floor(n)) || Contains(t[k..], "b" + [n]))
    ensures Contains(t, Floor(n)) || Contains(t, "b" + [n])
  {
    if Contains(t[k..], Floor(n)) {
      ContainsSuffix(t, k, Floor(n));
    } else {
      ContainsSuffix(t, k, "b" + [n]);
    }
  }

  lemma SpellingsAre(head: string, run: string, n: char)
    requires '1' <= n <= '9' && IsHead(head) && (run == [n] || run == [Chinese(n)])
    ensures head + run + "层" in FloorSpellings(n)
  {
    var s := FloorSpellings(n);
    var plain := run == [n];
    assert run == if plain then [n] else [Chinese(n)];
    if head == "地下" {
      assert head + run + "层" == s[if plain then 1 else 3];
    } else if head == "地下室" {
      assert head + run + "层" == s[if plain then 2 else 4];
    } else {
      assert head + run + "层" == s[if plain then 6 else 5];
    }
  }

  /** A Chinese floor whose number reads as `n` is one of the spellings of `n`. */
  lemma FloorIsSpelled(t: string, n: char) returns (s: string)
    requires '1' <= n <= '9' && Floor1(t).Some? && Number(Floor1(t).value) == [n]
    ensures s in FloorSpellings(n) && Contains(t, s)
  {
    FloorSpan(t);
    var h, run := HeadLength(t), Floor1(t).value;
    SpellingsAre(t[..h], run, n);
    s := t[..h + |run| + 1];
    ContainsAt(t, s, 0);
  }

  /** A floor in front of the result whose first character was copied stood there before. */
  lemma CopiedFloor1(t: string, n: char)
    requires t != [] && Floor1(t).None? && Floor(n) <= Sub1(t) && n != '地'
    ensures Contains(t, Floor(n))
  {
    hide Sub1;
    var w := Floor(n);
    Sub1Copies(t);
    assert w[0] == Sub1(t)[0];
    PrefixTail(w, Sub1(t));
    CopiedPrefix1(t[1..], w[1..]);
    ConsPrefix(t, w);
  }

  lemma {:induction false} FloorBefore1(t: string, n: char) returns (s: string)
    requires '1' <= n <= '9' && Contains(Sub1(t), Floor(n))
    ensures s in FloorSpellings(n) && Contains(t, s)
    decreases |t|
  {
    var f := Floor1(t);
    if f.Some? {
      var k := HeadLength(t) + |f.value| + 1;
      TokenHolds(f.value, Sub1(t[k..]), n);
      if Number(f.value) == [n] {
        s := FloorIsSpelled(t, n);
      } else {
        s := FloorBefore1(t[k..], n);
        ContainsSuffix(t, k, s);
      }
    } else if Floor(n) <= Sub1(t) {
      CopiedFloor1(t, n);
      s := Floor(n);
      SpellingsAre("地下", [n], n);
    } else {
      Sub1Copies(t);
      s := FloorBefore1(t[1..], n);
      ContainsSuffix(t, 1, s);
    }
  }

  lemma TokenHasNoB(run: string)
    requires IsRun(run)
    ensures 'b' !in Token(run)
  {
  }

  /** The first substitution makes no b-numbers. */
  lemma {:induction false} NumberBefore1(t: string, n: char)
    requires Contains(Sub1(t), "b" + [n]) && '1' <= n <= '9'
    ensures Contains(t, "b" + [n])
    decreases |t|
  {
    var w := "b" + [n];
    if t != [] {
      var f := Floor1(t);
      if f.Some? {
        var k := HeadLength(t) + |f.value| + 1;
        TokenHasNoB(f.value);
        SkipPrefix(Token(f.value), Sub1(t[k..]), w);
        NumberBefore1(t[k..], n);
        ContainsSuffix(t, k, w);
      } else {
        Sub1Copies(t);
        if w <= Sub1(t) {
          PrefixTail(w, Sub1(t));
          CopiedPrefix1(t[1..], w[1..]);
          ConsPrefix(t, w);
        } else {
          NumberBefore1(t[1..], n);
          ContainsSuffix(t, 1, w);
        }
      }
    }
  }

  /** Whatever the text, a floor that flooring finds in it stands there in one of its spellings. */
  lemma FloorsAreSpelled(t: string, n: char) returns (s: string)
    requires '1' <= n <= '9' && Contains(FloorText(t), Floor(n))
    ensures s in FloorSpellings(n) && Contains(t, s)
  {
    FloorBefore2(Sub1(t), None, n);
    if Contains(Sub1(t), Floor(n)) {
      s := FloorBefore1(t, n);
    } else {
      NumberBefore1(t, n);
      s := "b" + [n];
      assert FloorSpellings(n)[0] == s;
    }
  }

  lemma SpellingStarts(uni: Unicode, n: char, s: string)
    requires Sensible(uni) && '1' <= n <= '9' && s in FloorSpellings(n)
    ensures s != [] && !uni.isSpace(s[0])
  {
  }

  lemma SpellingCounts(word: string, s: string, terms: set<string>)
    requires SingleFloor(word).Some? && s in FloorSpellings(SingleFloor(word).value)
    requires Prefix3(s) in terms
    ensures InTerms(word, terms)
  {
    var i :| 0 <= i < |FloorSpellings(SingleFloor(word).value)| && FloorSpellings(SingleFloor(word).value)[i] == s;
    assert Spellings(word)[i + 1] == s;
  }

  /** The narrowing loses no text that a single-floor word matches. */
  lemma FloorWordsLoseNothing(uni: Unicode, word: string, text: string)
    requires Sensible(uni) && SingleFloor(word).Some?
    requires uni.normalize(text) == text && TermMatch(uni, Some(text), word)
    ensures InTerms(word, Grams(uni, text))
  {
    var n := SingleFloor(word).value;
    FoundContains(uni, FloorText(text), FloorText(word), 0);
    assert FloorText(word) == Floor(n);
    var s := FloorsAreSpelled(text, n);
    SpellingStarts(uni, n, s);
    GramOf(uni, text, s);
    SpellingCounts(word, s, Grams(uni, text));
  }

  // ---- exactly which words the narrowing serves ----

  ghost predicate LosesNothing(uni: Unicode, word: string) {
    forall t: string | uni.normalize(t) == t && TermMatch(uni, Some(t), word) :: InTerms(word, Grams(uni, t))
  }

  /** The same for texts that flooring leaves unchanged. */
  ghost predicate LosesNoPlainText(uni: Unicode, word: string) {
    forall t: string | uni.normalize(t) == t && FloorText(t) == t && TermMatch(uni, Some(t), word) :: InTerms(word, Grams(uni, t))
  }

  lemma MatchesItself(uni: Unicode, t: string, word: string)
    requires uni.normalize(t) == t && FloorText(t) == FloorText(word)
    ensures TermMatch(uni, Some(t), word)
  {
    var w := FloorText(word);
    if w != [] {
      assert w[0..0 + |w|] == w;
      assert MatchesAt(uni, w, w, 0);
      assert Stripped(uni, w[..0]) == [];
    }
  }

  lemma PlainWordsLoseNothing(uni: Unicode, word: string, text: string)
    requires word != [] && !uni.isSpace(word[0]) && Contains(FloorText(word), Prefix3(word))
    requires uni.normalize(text) == text && FloorText(text) == text && TermMatch(uni, Some(text), word)
    ensures InTerms(word, Grams(uni, text))
  {
    FoundContains(uni, text, FloorText(word), 0);
    ContainsTrans(text, FloorText(word), Prefix3(word));
    GramOf(uni, text, Prefix3(word));
    assert Spellings(word)[0] == word;
  }

  /** Other words lose nothing in plain text exactly if flooring keeps their first characters together. */
  lemma PlainWordsIff(uni: Unicode, word: string)
    requires word != [] && !uni.isSpace(word[0]) && SingleFloor(word).None?
    requires uni.normalize(FloorText(word)) == FloorText(word)
    ensures LosesNoPlainText(uni, word) <==> Contains(FloorText(word), Prefix3(word))
  {
    if LosesNoPlainText(uni, word) {
      FloorTextTwice(word);
      MatchesItself(uni, FloorText(word), word);
      OnlySpelling(word, Grams(uni, FloorText(word)));
      GramContained(uni, FloorText(word), Prefix3(word));
    }
    if Contains(FloorText(word), Prefix3(word)) {
      forall t: string | uni.normalize(t) == t && FloorText(t) == t && TermMatch(uni, Some(t), word)
        ensures InTerms(word, Grams(uni, t))
      {
        PlainWordsLoseNothing(uni, word, t);
      }
    }
  }

  lemma OnlySpelling(word: string, terms: set<string>)
    requires SingleFloor(word).None? && InTerms(word, terms)
    ensures Prefix3(word) in terms
  {
  }

  lemma FlooredSpelling(head: string, run: string)
    requires IsHead(head) && IsRun(run)
    ensures FloorText(head + run + "层") == Token(run)
  {
    var t := head + run + "层";
    assert t + "" == t;
    TokenIsFloor(head, run, "");
    assert t[|head| + |run| + 1..] == [];
    assert Sub1(t) == Token(run) + "";
    TokenCopied(run, "", None);
  }

  /** Only these characters can become the start of a floor. */
  lemma FloorKeepsFirst(word: string)
    requires word != [] && word[0] != '地' && word[0] != '负' && word[0] != 'b'
    ensures FloorText(word) != [] && FloorText(word)[0] == word[0]
  {
    Sub1Starts(word);
    Sub2Starts(Sub1(word), None);
  }

  /**
   Words that mean a floor below ground lose nothing, whatever the text, exactly for the floors 1
   to 9; for any other floor some text that spells it differently is missed.
   */
  lemma FloorWordsIff(uni: Unicode, word: string, run: string)
    requires Sensible(uni) && IsRun(run) && FloorText(word) == "地下" + run + "层"
    requires uni.normalize("地下" + run + "层") == "地下" + run + "层" && uni.normalize("负" + run + "层") == "负" + run + "层"
    ensures LosesNothing(uni, word) <==> |run| == 1 && '1' <= run[0] <= '9'
  {
    if |run| == 1 && '1' <= run[0] <= '9' {
      assert SingleFloor(word) == Some(run[0]);
      forall t: string | uni.normalize(t) == t && TermMatch(uni, Some(t), word) ensures InTerms(word, Grams(uni, t)) {
        FloorWordsLoseNothing(uni, word, t);
      }
    } else {
      assert SingleFloor(word) == None by {
        assert FloorText(word)[2] == run[0];
      }
      assert word != [];
      OtherFloorsAreMissed(uni, word, run);
    }
  }

  /** Both spellings read as the word does. */
  lemma SpellingsRead(word: string, run: string)
    requires IsRun(run) && FloorText(word) == "地下" + run + "层"
    ensures FloorText("地下" + run + "层") == FloorText(word) && FloorText("负" + run + "层") == FloorText(word)
  {
    FlooredSpelling("地下", run);
    FlooredSpelling("负", run);
    FloorTextTwice(word);
  }

  lemma OtherFloorsAreMissed(uni: Unicode, word: string, run: string)
    requires IsRun(run) && FloorText(word) == "地下" + run + "层" && SingleFloor(word).None? && word != []
    requires uni.normalize("地下" + run + "层") == "地下" + run + "层" && uni.normalize("负" + run + "层") == "负" + run + "层"
    ensures !LosesNothing(uni, word)
  {
    SpellingsRead(word, run);
    if LosesNothing(uni, word) {
      FoundIn(uni, word, "地下" + run + "层");
      FoundIn(uni, word, "负" + run + "层");
      StartsDiffer(uni, word, run);
    }
  }

  lemma FoundIn(uni: Unicode, word: string, t: string)
    requires LosesNothing(uni, word) && SingleFloor(word).None? && uni.normalize(t) == t && FloorText(t) == FloorText(word)
    ensures Prefix3(word) in Grams(uni, t)
  {
    MatchesItself(uni, t, word);
    OnlySpelling(word, Grams(uni, t));
  }

  /** Two spellings of a floor share no more than the number and the word for floor. */
  lemma Shared(run: string, c: char)
    requires IsRun(run) && c in "地下" + run + "层" && c in "负" + run + "层"
    ensures c in run || c == '层'
  {
  }

  lemma NoFloorStart(word: string, run: string)
    requires IsRun(run) && word != [] && (word[0] in run || word[0] == '层')
    ensures FloorText(word) != "地下" + run + "层"
  {
    assert word[0] in run ==> RunChar(word[0]);
    FloorKeepsFirst(word);
    assert ("地下" + run + "层")[0] == '地';
  }

  lemma StartsDiffer(uni: Unicode, word: string, run: string)
    requires IsRun(run) && FloorText(word) == "地下" + run + "层" && word != []
    requires Prefix3(word) in Grams(uni, "地下" + run + "层")
    ensures Prefix3(word) !in Grams(uni, "负" + run + "层")
  {
    var below, minus := "地下" + run + "层", "负" + run + "层";
    if Prefix3(word) in Grams(uni, minus) {
      GramContained(uni, below, Prefix3(word));
      GramContained(uni, minus, Prefix3(word));
      FirstContained(below, Prefix3(word));
      FirstContained(minus, Prefix3(word));
      Shared(run, word[0]);
      NoFloorStart(word, run);
    }
  }

  lemma {:induction false} NoFloorToSubstitute(t: string)
    requires '地' !in t && '负' !in t
    ensures Sub1(t) == t
  {
    if t != [] {
      assert t[0] in t && HeadLength(t) == 0;
      Sub1Copies(t);
      NoFloorToSubstitute(t[1..]);
    }
  }

  lemma NumberFloors(digits: string)
    requires digits != [] && forall i | 0 <= i < |digits| :: AsciiDigit(digits[i])
    ensures FloorText("b" + digits) == Token(digits)
  {
    var word := "b" + digits;
    assert forall i | 0 < i < |word| :: word[i] == digits[i - 1];
    NoFloorToSubstitute(word);
    assert word[1 + |digits|..] == [] && "b" + digits <= word;
    NumberIs(word, digits, None);
    assert Sub2(word, None) == Token(digits) + Sub2([], Some(word[|digits|]));
  }

  /** The twelfth floor below ground, asked for as b12: a text that says 地下12层 is missed. */
  lemma TwelfthFloorIsMissed(uni: Unicode)
    requires Sensible(uni) && uni.normalize("地下12层") == "地下12层" && uni.normalize("负12层") == "负12层"
    ensures FloorText("b12") == "地下12层" && !LosesNothing(uni, "b12")
  {
    var run := "12";
    NumberFloors(run);
    assert "b" + run == "b12" && "地下" + run + "层" == "地下12层" && "负" + run + "层" == "负12层";
    FloorWordsIff(uni, "b12", run);
  }
}
