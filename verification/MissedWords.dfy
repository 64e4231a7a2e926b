/**
 Which words the narrowing misses: for a word that does not stand, a text that it matches and that
 does not have the word's first three characters.
 */
module MissedWords {
  import opened Prelude
  import opened Floors
  import opened TermMatching
  import opened FloorWords
  import opened Standing
  import opened StandingWords
  import opened Respelling

  // ---- a text that shows the word is one it matches ----

  lemma {:induction false} StrippedIsPrefix(uni: Unicode, t: string)
    ensures Stripped(uni, t) <= t
  {
    if t != [] && uni.isSpace(t[|t| - 1]) {
      StrippedIsPrefix(uni, t[..|t| - 1]);
    }
  }

  lemma NotNegated(uni: Unicode, a: string)
    requires a <= "地下1"
    ensures !Negated(uni, a)
  {
    StrippedIsPrefix(uni, a);
    var t := Stripped(uni, a);
    assert forall i | 0 <= i < |t| :: t[i] == "地下1"[i];
    if t != [] {
      var c := t[|t| - 1];
      assert c == '地' || c == '下' || c == '1';
      LastOf(t, "不包含");
      LastOf(t, "不含");
      LastOf(t, "没有");
      LastOf(t, "未设");
      LastOf(t, "不设");
      LastOf(t, "不带");
      LastOf(t, "无");
    }
  }

  lemma LastOf(t: string, w: string)
    requires t != [] && w != []
    ensures EndsWith(t, w) ==> t[|t| - 1] == w[|w| - 1]
  {
  }

  lemma {:induction false} FoundFrom(uni: Unicode, text: string, word: string, i: nat, n: nat)
    requires word != [] && i <= n && MatchesAt(uni, text, word, n) && !Negated(uni, text[..n])
    requires forall k | i <= k < n :: text[k] != word[0]
    ensures Found(uni, text, word, i)
    decreases n - i
  {
    if i < n {
      assert text[i..i + |word|][0] == text[i];
      FoundFrom(uni, text, word, i + 1, n);
    }
  }

  lemma FoundAfter(uni: Unicode, a: string, f: string, b: string)
    requires f != [] && a <= "地下1" && f[0] !in a
    requires a != [] ==> !AsciiAlnum(a[|a| - 1]) || !Bounded(f[0])
    requires b != [] ==> !AsciiAlnum(b[0]) || !Bounded(f[|f| - 1])
    ensures Found(uni, a + f + b, f, 0)
  {
    var text := a + f + b;
    assert text[|a|..|a| + |f|] == f;
    assert text[..|a|] == a;
    NotNegated(uni, a);
    FoundFrom(uni, text, f, 0, |a|);
  }

  // ---- the text that a word misses ----

  /** The text goes on in front with ground, if that could start a floor. */
  function Opened(f: string): string {
    if f != [] && f[0] == '下' && MaybeFloor("地" + f) then "地" + f else f
  }

  function RestOf(f: string, r: string): string {
    if |f| > |r| then f[|r| + 1..] else ""
  }

  /** The gram could be the end of a floor in front of the text, and another spelling hides it. */
  predicate Hidden(f: string, p: string) { Tailable(p) && p <= f && !StaysTail(f, p) }

  /** Another spelling of the floor that the gram could be the end of. */
  function HidingText(f: string, p: string): string
    requires Hidden(f, p)
  {
    var r := LeadingRun(p);
    if Single(r) then "负" + [Chinese(r[0])] + "层" + RestOf(f, r)
    else "b" + (if r == [] then "1" else r) + RestOf(f, r)
  }

  function Witness(word: string): string {
    var f, p := FloorText(word), Prefix3(word);
    if !Contains(f, p) then f
    else if Hidden(f, p) then HidingText(f, p)
    else Respelled(Opened(f))
  }

  lemma NoFloorWithoutWord(s: string)
    requires '层' !in s
    ensures Floor1(s).None?
  {
  }

  lemma PartialHasNoFloor(s: string)
    requires Partial(s)
    ensures Floor1(s).None?
  {
    assert forall i | 0 <= i < |s| :: s[i] == '地' || s[i] == '下' || RunChar(s[i]);
    NoFloorWithoutWord(s);
  }

  lemma OpenedIsFloored(f: string)
    requires FloorText(f) == f
    ensures FloorText(Opened(f)) == Opened(f)
  {
    if Opened(f) != f {
      FlooredIsCanonical(f);
      OpenedFixed1(f, "地" + f);
      OpenedFixed2(f, "地" + f);
    }
  }

  lemma OpenedFixed1(f: string, g: string)
    requires g == "地" + f && MaybeFloor(g) && Canonical(f)
    ensures Sub1(g) == g
  {
    assert g[1..] == f;
    if Partial(g) {
      PartialHasNoFloor(g);
    }
    CanonicalIsFixed(g);
  }

  lemma OpenedFixed2(f: string, g: string)
    requires f != [] && f[0] == '下' && g == "地" + f && Sub2(f, None) == f
    ensures Sub2(g, None) == g
  {
    assert g[1..] == f;
    assert Floor2(f, Some('地')) == Floor2(f, None);
    Sub2Copies(g, None);
  }

  lemma CompletedParts(g: string) returns (b: string)
    requires g != []
    ensures Completed(g) == g + b && (b != [] ==> !AsciiAlnum(b[0]) || !Bounded(g[|g| - 1]))
  {
    CompletedExtends(g);
    b := Completed(g)[|g|..];
    if b != [] {
      EndsBounded(g);
      assert b[0] == Completed(g)[|g|];
    }
  }

  lemma ShowsCompleted(uni: Unicode, a: string, f: string, g: string)
    requires f != [] && g == a + f && (a == "" || (a == "地" && f[0] == '下'))
    ensures Found(uni, Completed(g), f, 0)
  {
    var b := CompletedParts(g);
    assert g[|g| - 1] == f[|f| - 1];
    FoundAfter(uni, a, f, b);
  }

  lemma ShowsOpened(uni: Unicode, f: string)
    requires f != [] && FloorText(f) == f
    ensures Found(uni, FloorText(Respelled(Opened(f))), f, 0)
  {
    var g := Opened(f);
    assert FloorText(Respelled(g)) == Completed(g) by {
      OpenedIsFloored(f);
      Unspelled(g);
    }
    ShowsCompleted(uni, if g == f then "" else "地", f, g);
  }

  // ---- floors that hide a gram ----

  lemma HiddenParts(f: string, p: string)
    requires Hidden(f, p) && (|p| == 1 ==> |f| == 1)
    ensures var r := LeadingRun(p); var rest := RestOf(f, r);
      && (f == r + "层" + rest || (f == r && Single(r) && rest == ""))
      && (p == r ==> Single(r))
      && (!Single(r) ==> !HasChinese(r) && (rest == "" || !AsciiAlnum(rest[0])) && !(r != [] && NoGround(p) && p <= r + rest))
  {
    var r := LeadingRun(p);
    if p != r {
      Prefix(p, f, |r|);
      assert f[|r|] == p[|r|] == '层';
      RunThenFloor(f, r);
    }
  }

  lemma ReadsMinus(run: string, rest: string)
    requires IsRun(run) && Canonical(rest) && Sub2(rest, Some('层')) == rest
    ensures FloorText("负" + run + "层" + rest) == Token(run) + rest
  {
    MinusFloor(run, rest);
    CanonicalIsFixed(rest);
    TokenCopied(run, rest, None);
  }

  lemma ReadsNumber(d: string, rest: string)
    requires d != [] && (forall i | 0 <= i < |d| :: AsciiDigit(d[i])) && (rest == [] || !AsciiAlnum(rest[0]))
    requires Canonical(rest) && Sub2(rest, Some('层')) == rest
    ensures FloorText("b" + d + rest) == Token(d) + rest
  {
    var t := "b" + d + rest;
    CanonicalAfter("b" + d, rest);
    CanonicalIsFixed(t);
    assert t[1 + |d|..] == rest;
    NumberIs(t, d, None);
    Sub2Substitutes(t, None);
    NoMatchHere(rest, Some(t[|d|]), Some('层'));
  }

  lemma RestFixed(f: string, r: string, rest: string)
    requires f == r + "层" + rest && FloorText(f) == f && forall i | 0 <= i < |r| :: RunChar(r[i])
    ensures Canonical(rest) && Sub2(rest, Some('层')) == rest
  {
    FlooredIsCanonical(f);
    CanonicalSuffix(f, |r| + 1);
    assert f[|r| + 1..] == rest;
    var q := r + "层";
    CopiedThrough(q, rest, None);
    assert f == q + rest;
    assert Sub2(f, None)[|q|..] == Sub2(rest, Some('层'));
  }

  lemma NothingFixed()
    ensures Canonical("") && Sub2("", Some('层')) == ""
  {
  }

  lemma FoundAtEnd(uni: Unicode, u: string, a: string, f: string)
    requires f != [] && u == a + f && a <= "地下1" && f[0] !in a && (a != [] ==> !AsciiAlnum(a[|a| - 1]) || !Bounded(f[0]))
    ensures Found(uni, u, f, 0)
  {
    assert u == a + f + "";
    FoundAfter(uni, a, f, "");
  }

  lemma TranslatesBack(r: string)
    requires Single(r)
    ensures IsRun([Chinese(r[0])]) && Number([Chinese(r[0])]) == r
  {
  }

  lemma MinusReads(f: string, r: string, rest: string)
    requires Single(r) && FloorText(f) == f && f == r + "层" + rest
    ensures FloorText("负" + [Chinese(r[0])] + "层" + rest) == "地下" + f
  {
    var cn := [Chinese(r[0])];
    TranslatesBack(r);
    RestFixed(f, r, rest);
    ReadsMinus(cn, rest);
    BodyMoved("地下", r, rest);
  }

  lemma BodyMoved(a: string, r: string, rest: string)
    ensures a + r + "层" + rest == a + (r + "层" + rest)
  {
    Join(a + r, "层", rest);
    Join(a, r, "层" + rest);
    Join(r, "层", rest);
  }

  lemma MinusAloneReads(r: string)
    requires Single(r)
    ensures FloorText("负" + [Chinese(r[0])] + "层" + "") == "地下" + r + "层"
  {
    var cn := [Chinese(r[0])];
    TranslatesBack(r);
    NothingFixed();
    ReadsMinus(cn, "");
    assert Token(cn) + "" == Token(cn);
  }

  lemma ShowsMinus(uni: Unicode, f: string, r: string, rest: string)
    requires Single(r) && FloorText(f) == f && (f == r + "层" + rest || (f == r && rest == ""))
    ensures Found(uni, FloorText("负" + [Chinese(r[0])] + "层" + rest), f, 0)
  {
    if f == r {
      MinusAloneReads(r);
      FoundAfter(uni, "地下", f, "层");
    } else {
      MinusReads(f, r, rest);
      FirstOf(f, r, rest);
      FoundAtEnd(uni, "地下" + f, "地下", f);
    }
  }

  lemma FirstOf(f: string, r: string, rest: string)
    requires f == r + "层" + rest
    ensures f != [] && f[0] == if r == [] then '层' else r[0]
  {
  }

  lemma NumberReads(f: string, r: string, d: string, a: string, rest: string)
    requires d != [] && (forall i | 0 <= i < |d| :: AsciiDigit(d[i])) && FloorText(f) == f && f == r + "层" + rest
    requires (rest == "" || !AsciiAlnum(rest[0])) && a + r == "地下" + d && forall i | 0 <= i < |r| :: RunChar(r[i])
    ensures FloorText("b" + d + rest) == a + f
  {
    RestFixed(f, r, rest);
    ReadsNumber(d, rest);
    assert Number(d) == d;
    BodyMoved(a, r, rest);
  }

  lemma ShowsNumber(uni: Unicode, f: string, r: string, rest: string)
    requires (forall i | 0 <= i < |r| :: AsciiDigit(r[i])) && FloorText(f) == f && f == r + "层" + rest
    requires rest == "" || !AsciiAlnum(rest[0])
    ensures Found(uni, FloorText("b" + (if r == [] then "1" else r) + rest), f, 0)
  {
    FirstOf(f, r, rest);
    if r == [] {
      assert "地下1" + r == "地下" + "1";
      NumberReads(f, r, "1", "地下1", rest);
      FoundAtEnd(uni, "地下1" + f, "地下1", f);
    } else {
      NumberReads(f, r, r, "地下", rest);
      FoundAtEnd(uni, "地下" + f, "地下", f);
    }
  }

  lemma ShowsHiding(uni: Unicode, f: string, p: string)
    requires Hidden(f, p) && (|p| == 1 ==> |f| == 1) && FloorText(f) == f
    ensures Found(uni, FloorText(HidingText(f, p)), f, 0)
  {
    var r := LeadingRun(p);
    HiddenParts(f, p);
    if Single(r) {
      ShowsMinus(uni, f, r, RestOf(f, r));
    } else {
      ShowsNumber(uni, f, r, RestOf(f, r));
    }
  }

  predicate FoundAgain(f: string, p: string) { f != [] && Contains(f[1..], p) }

  lemma RestInside(f: string, r: string, p: string)
    requires f != [] && Contains(RestOf(f, r), p) && p != []
    ensures FoundAgain(f, p)
  {
    if |f| > |r| {
      DropDrop(f, 1, |r|);
      ContainsSuffix(f[1..], |r|, p);
    }
  }

  lemma MinusLacks(r: string, rest: string, p: string)
    requires Single(r) && p != [] && p[0] == r[0] && !Contains(rest, p)
    ensures !Contains("负" + [Chinese(r[0])] + "层" + rest, p)
  {
    var q := "负" + [Chinese(r[0])] + "层";
    if Contains(q + rest, p) {
      SkipPrefix(q, rest, p);
    }
  }

  lemma RunInFront(r: string, p: string)
    requires r + "层" <= p
    ensures |p| > |r| && p[|r|] == '层' && forall i | 0 <= i < |r| :: p[i] == r[i]
  {
    var q := r + "层";
    assert forall i | 0 <= i < |q| :: p[i] == q[i];
  }

  /** A b-number shows a gram that goes on with the word for floor only if what follows it does. */
  lemma NumberLacks(r: string, d: string, rest: string, p: string)
    requires d == (if r == [] then "1" else r) && (forall i | 0 <= i < |r| :: AsciiDigit(r[i])) && |p| <= 3 && r + "层" <= p && !Contains(rest, p)
    requires rest == "" || !AsciiAlnum(rest[0])
    requires r != [] ==> !(p <= r + rest)
    ensures !Contains("b" + d + rest, p)
  {
    RunInFront(r, p);
    if r == [] {
      NoDigitLacks(rest, p);
    } else if |d| == 1 {
      OneDigitLacks(d, rest, p);
    } else {
      TwoDigitsLack(d, rest, p, "b" + d + rest, d + rest, [d[1]] + rest);
    }
  }

  lemma NoDigitLacks(rest: string, p: string)
    requires p != [] && p[0] == '层' && !Contains(rest, p)
    ensures !Contains("b1" + rest, p)
  {
    if Contains("b1" + rest, p) {
      SkipPrefix("b1", rest, p);
    }
  }

  lemma OneDigitLacks(r: string, rest: string, p: string)
    requires |r| == 1 && AsciiDigit(r[0]) && p != [] && p[0] == r[0] && !Contains(rest, p) && !(p <= r + rest)
    ensures !Contains("b" + r + rest, p)
  {
    var t := "b" + r + rest;
    assert t[1..] == r + rest && t[2..] == rest && t[0] == 'b';
    if Contains(t, p) {
      StepTwice(t, p);
    }
  }

  lemma TwoDigitsLack(r: string, rest: string, p: string, t: string, u: string, v: string)
    requires |r| == 2 && AsciiDigit(r[0]) && AsciiDigit(r[1]) && |p| == 3 && p[0] == r[0] && p[1] == r[1]
    requires t == "b" + r + rest && u == r + rest && v == [r[1]] + rest
    requires !Contains(rest, p) && (rest == "" || !AsciiAlnum(rest[0])) && !(p <= u)
    ensures !Contains(t, p)
  {
    assert t[0] == 'b' && t[1..] == u && u[1..] == v && v[1..] == rest;
    SecondLacks(v, rest, p);
    OneMore(u, v, p);
    OneMore(t, u, p);
  }

  lemma OneMore(t: string, u: string, p: string)
    requires t != [] && t[1..] == u && !(p <= t) && !Contains(u, p)
    ensures !Contains(t, p)
  {
  }

  lemma SecondLacks(v: string, rest: string, p: string)
    requires v != [] && v[1..] == rest && !Contains(rest, p) && |p| >= 2 && AsciiDigit(p[1])
    requires rest == "" || !AsciiAlnum(rest[0])
    ensures !Contains(v, p)
  {
    assert |v| > 1 ==> v[1] == rest[0];
  }

  lemma StepTwice(t: string, p: string)
    requires |t| >= 2 && Contains(t, p)
    ensures p <= t || p <= t[1..] || Contains(t[2..], p)
  {
    assert t[1..][1..] == t[2..];
  }

  lemma ShortHasNoGround(f: string, r: string, rest: string, p: string)
    requires r != [] && (forall i | 0 <= i < |r| :: AsciiDigit(r[i])) && f == r + "层" + rest
    requires |p| <= 3 && r + "层" <= p <= f && p <= r + rest
    ensures NoGround(p)
  {
    RunInFront(r, p);
    Parts(r, rest);
    assert (r + rest)[|r|..] == rest && f[|r| + 1..] == rest;
    assert p[|r|] == (r + rest)[|r|] == rest[0] && f[|r| + 1] == rest[0];
    assert forall i | 0 <= i < |p| :: p[i] == f[i];
  }

  lemma HidingLacks(f: string, p: string)
    requires Hidden(f, p) && |p| <= 3 && (|p| == 1 ==> |f| == 1) && !FoundAgain(f, p)
    ensures !Contains(HidingText(f, p), p)
  {
    var r := LeadingRun(p);
    var rest := RestOf(f, r);
    HiddenParts(f, p);
    if Contains(rest, p) {
      RestInside(f, r, p);
    }
    if Single(r) {
      assert p[0] == r[0];
      MinusLacks(r, rest, p);
    } else {
      assert r + "层" <= p by {
        assert p[..|r| + 1] == r + "层";
      }
      if r != [] && p <= r + rest {
        ShortHasNoGround(f, r, rest, p);
      }
      NumberLacks(r, if r == [] then "1" else r, rest, p);
    }
  }

  // ---- a word that the witness shows stands ----

  /** The gram could be the end of a floor. */
  predicate EndsFloor(p: string) { Tailable(p) && LeadingRun(p) != p }

  /** A gram whose negation sign has no ground close behind it is at no floor. */
  lemma AccidentStands(f: string, i: nat, p: string)
    requires i <= |f| && p != [] && p <= f[i..] && |p| <= 3 && !Clean(p) && !Tailable(p)
    ensures StandsAt(f, i, p)
  {
    var k :| 0 <= k < |p| && p[k] == '负' && !GroundClose(p, k);
    var v := f[i..];
    forall j | 0 <= j < |p| && p[j] == '地' ensures !MaybeFloor(v[j..]) {
      assert j < k;
      assert v[j..][k - j] == v[k] == '负';
      NoFloorOverMinus(v[j..], k - j);
    }
    if p[0] == '下' {
      NoGroundInFront(f, i, p, k);
    }
  }

  lemma NoFloorOverMinus(s: string, k: nat)
    requires 0 < k < |s| && k <= 3 && s[k] == '负'
    ensures !MaybeFloor(s)
  {
    if MaybeFloor(s) {
      FloorChars(s);
    }
  }

  lemma NoGroundInFront(f: string, i: nat, p: string, k: nat)
    requires i < |f| && p <= f[i..] && |p| <= 3 && k < |p| && p[k] == '负'
    ensures i == 0 ==> !MaybeFloor("地" + f)
    ensures i > 0 ==> !MaybeFloor(f[i - 1..])
  {
    assert f[i..][k] == '负';
    if i == 0 {
      var g := "地" + f;
      assert g[k + 1] == f[k] == f[0..][k];
      NoFloorOverMinus(g, k + 1);
    } else {
      assert f[i - 1..][k + 1] == f[i + k] == '负';
      NoFloorOverMinus(f[i - 1..], k + 1);
    }
  }

  lemma PlainStands(f: string, i: nat, v: string, p: string)
    requires p != [] && PlainAt(f, i, p) && v == f[i..] && (Tailable(p) ==> p <= v && StaysTail(v, p))
    requires i == 0 && p[0] == '下' ==> !MaybeFloor("地" + f)
    ensures StandsAt(f, i, p)
  {
  }

  /** What stands in the opened text stands in the text. */
  lemma OpenedStands(f: string, i: nat, p: string)
    requires p != [] && !Tailable(p) && PlainAt(Opened(f), i, p)
    ensures exists j: nat :: StandsAt(f, j, p)
  {
    var g := Opened(f);
    if g == f {
      if i == 0 && p[0] == '下' {
        assert f[0] == p[0];
      }
      PlainStands(f, i, f[i..], p);
    } else {
      assert g == "地" + f && g[0..] == g && g[1..] == f;
      if i >= 2 {
        BehindGround(f, g, i, p);
      } else {
        AtGround(f, g, i, p);
      }
    }
  }

  lemma AtGround(f: string, g: string, i: nat, p: string)
    requires i <= 1 && p != [] && f != [] && f[0] == '下' && g == "地" + f
    requires MaybeFloor(g)
    ensures !PlainAt(g, i, p)
  {
    assert g[0..] == g && g[1..] == f;
    if i == 0 && p <= g {
      assert p[0] == '地';
    }
  }

  lemma BehindGround(f: string, g: string, i: nat, p: string)
    requires 2 <= i && p != [] && !Tailable(p) && g == "地" + f && PlainAt(g, i, p)
    ensures StandsAt(f, i - 1, p)
  {
    assert g[1..] == f;
    DropDrop(g, 1, i - 1);
    DropDrop(g, 1, i - 2);
    assert f[i - 2] == g[i - 1];
    PlainLess(f, i - 1, g, i, p);
    PlainStands(f, i - 1, f[i - 1..], p);
  }

  lemma PlainLess(f: string, j: nat, g: string, i: nat, p: string)
    requires 0 < j <= |f| && 0 < i && p != [] && PlainAt(g, i, p) && g[i..] == f[j..] && g[i - 1..] == f[j - 1..] && g[i - 1] == f[j - 1]
    ensures PlainAt(f, j, p)
  {
  }

  lemma OneCharacter(word: string)
    requires |word| == 1
    ensures FloorText(word) == word
  {
    assert word[1..] == [] && word == [word[0]];
    assert Floor1(word).None?;
    Sub1Copies(word);
    assert Sub1(word) == word && Floor2(word, None).None?;
    Sub2Copies(word, None);
  }

  lemma TailableFront(word: string)
    requires word != [] && Tailable(Prefix3(word))
    ensures FloorText(word) != [] && FloorText(word)[0] == Prefix3(word)[0] != '下'
  {
    assert Prefix3(word)[0] == word[0];
    FloorKeepsFirst(word);
  }

  /** A gram with ground that a floor cannot end with stands if the respelled text shows it. */
  lemma GroundGramStands(f: string, p: string)
    requires p != [] && |p| <= 3 && Contains(f, p) && !Tailable(p) && Contains(Respelled(Opened(f)), p)
    ensures exists i: nat :: StandsAt(f, i, p)
  {
    if Clean(p) {
      WasThere(Opened(f), p);
      var i: nat :| PlainAt(Opened(f), i, p);
      OpenedStands(f, i, p);
    } else {
      var i := PlaceOf(f, p);
      assert p <= f[i..];
      AccidentStands(f, i, p);
    }
  }

  /** Ground and a negation sign leave no room for a number that stays. */
  lemma StayingIsClean(f: string, p: string)
    requires |p| <= 3 && EndsFloor(p) && p <= f && StaysTail(f, p) && '地' in p
    ensures Clean(p)
  {
    var r := LeadingRun(p);
    assert p[|r|] == '层';
    if r == [] {
      assert p[1] == f[1] && AsciiAlnum(p[1]);
    } else {
      assert RunChar(p[0]);
      assert forall i | 0 <= i < |r| :: RunChar(p[i]);
    }
  }

  lemma OnlyInFront(f: string, i: nat, p: string)
    requires f != [] && i <= |f| && p <= f[i..] && !FoundAgain(f, p)
    ensures i == 0
  {
    if i > 0 {
      DropDrop(f, 1, i - 1);
      assert p <= f[1..][i - 1..];
      PrefixContained(f[1..], i - 1, p);
    }
  }

  lemma TailGramStands(f: string, p: string)
    requires p != [] && |p| <= 3 && EndsFloor(p) && p <= f && StaysTail(f, p) && '地' in p
    requires f[0] != '下' && !FoundAgain(f, p) && Contains(Respelled(Opened(f)), p)
    ensures exists i: nat :: StandsAt(f, i, p)
  {
    StayingIsClean(f, p);
    WasThere(f, p);
    var i: nat :| PlainAt(f, i, p);
    OnlyInFront(f, i, p);
    assert f[0..] == f;
    PlainStands(f, i, f, p);
  }

  lemma RunHasNoGround(p: string)
    requires p != [] && LeadingRun(p) == p
    ensures '地' !in p && p[0] != '下'
  {
    assert forall i | 0 <= i < |p| :: RunChar(p[i]);
  }

  /** If its witness shows the gram, the gram stands. */
  lemma ShownStands(f: string, p: string)
    requires p != [] && |p| <= 3 && Contains(f, p) && !Hidden(f, p) && Contains(Respelled(Opened(f)), p)
    requires Tailable(p) ==> f[0] == p[0] != '下' && (LeadingRun(p) == p && Single(p) ==> |f| == 1)
    requires EndsFloor(p) ==> !FoundAgain(f, p)
    ensures exists i: nat :: StandsAt(f, i, p)
  {
    if Tailable(p) && LeadingRun(p) == p {
      RunHasNoGround(p);
      PlainGramStands(f, p);
    } else if '地' !in p && p[0] != '下' {
      PlainGramStands(f, p);
    } else if Tailable(p) {
      TailGramStands(f, p);
    } else {
      GroundGramStands(f, p);
    }
  }

  /** Each word is one that its witness matches. */
  lemma WitnessMatches(uni: Unicode, word: string)
    requires word != [] && uni.normalize(Witness(word)) == Witness(word)
    ensures TermMatch(uni, Some(Witness(word)), word)
  {
    var f, p := FloorText(word), Prefix3(word);
    FloorTextTwice(word);
    FloorNotEmpty(word);
    if !Contains(f, p) {
      MatchesItself(uni, f, word);
    } else if Hidden(f, p) {
      if |word| == 1 {
        OneCharacter(word);
      }
      ShowsHiding(uni, f, p);
    } else {
      ShowsOpened(uni, f);
    }
  }

  lemma FloorNotEmpty(word: string)
    requires word != []
    ensures FloorText(word) != []
  {
    Sub1Starts(word);
    Sub2Starts(Sub1(word), None);
  }

  lemma WitnessDecides(word: string)
    requires word != [] && Contains(Witness(word), Prefix3(word))
    requires EndsFloor(Prefix3(word)) ==> !FoundAgain(FloorText(word), Prefix3(word))
    ensures Stands(word)
  {
    var f, p := FloorText(word), Prefix3(word);
    FloorNotEmpty(word);
    if |word| == 1 {
      OneCharacter(word);
    }
    if Tailable(p) {
      TailableFront(word);
    }
    assert Contains(f, p);
    if Hidden(f, p) {
      if LeadingRun(p) == p {
        assert f[1..] == [];
      }
      HidingLacks(f, p);
    } else {
      ShownStands(f, p);
    }
  }

  /**
   Exactly which words lose nothing, whatever the text: the floors 1 to 9 below ground, and the
   words whose first three characters stand.  Left open is only a gram that could be the end of a
   floor, does not stand, and is found a second time in the floored word.
   */
  lemma ServedIff(uni: Unicode, word: string)
    requires Sensible(uni) && word != [] && !uni.isSpace(word[0])
    requires uni.normalize(Witness(word)) == Witness(word)
    requires EndsFloor(Prefix3(word)) && !Stands(word) ==> !FoundAgain(FloorText(word), Prefix3(word))
    ensures LosesNothing(uni, word) <==> SingleFloor(word).Some? || Stands(word)
  {
    if SingleFloor(word).Some? || Stands(word) {
      forall t: string | uni.normalize(t) == t && TermMatch(uni, Some(t), word) ensures InTerms(word, Grams(uni, t)) {
        if Stands(word) {
          StandingWordsLoseNothing(uni, word, t);
        } else {
          FloorWordsLoseNothing(uni, word, t);
        }
      }
    } else if LosesNothing(uni, word) {
      var w := Witness(word);
      WitnessMatches(uni, word);
      OnlySpelling(word, Grams(uni, w));
      GramContained(uni, w, Prefix3(word));
      WitnessDecides(word);
    }
  }

  lemma FloorsAlone()
    ensures FloorText("地下") == "地下" && FloorText("b1") == "地下1层"
  {
    NumberFloors("1");
    assert "b" + "1" == "b1" && Token("1") == "地下1层";
    var g := "地下";
    assert g + "" == g;
    CopiedThrough(g, "", None);
    assert Canonical("") && g[1..] == "下" && Canonical("下");
    CanonicalIsFixed(g);
  }

  /** The word for underground, which every floor is shown with, misses a text that says b1. */
  lemma UndergroundIsMissed(uni: Unicode)
    requires uni.normalize("b1") == "b1"
    ensures SingleFloor("地下").None? && Contains(FloorText("地下"), Prefix3("地下"))
    ensures TermMatch(uni, Some("b1"), "地下") && !InTerms("地下", Grams(uni, "b1")) && !LosesNothing(uni, "地下")
  {
    FloorsAlone();
    assert TermMatch(uni, Some("b1"), "地下") by {
      assert "" + "地下" + "1层" == "地下1层";
      FoundAfter(uni, "", "地下", "1层");
    }
    if InTerms("地下", Grams(uni, "b1")) {
      OnlySpelling("地下", Grams(uni, "b1"));
      GramContained(uni, "b1", "地下");
    }
  }
}
