/**
 What a match means: a place of the word in the text that is not inside a longer number and that
 no negation stands in front of; and what the search returns in these terms.
 */
module TermMeaning {
  import opened Prelude
  import opened Floors
  import opened TermMatching
  import Search = AttachmentSearch

  // ---- in terms of the texts ----

  predicate Alphanumeric(c: char) { 'a' <= c <= 'z' || '0' <= c <= '9' }

  /** The word is at the place; a word with digits does not continue a number or identifier there. */
  predicate StandsAlone(uni: Unicode, text: string, word: string, i: nat) {
    && i + |word| <= |text| && text[i..i + |word|] == word
    && (word != [] && (exists k | 0 <= k < |word| :: uni.isDigit(word[k])) ==>
          && (i > 0 && (Alphanumeric(word[0]) || 'A' <= word[0] <= 'Z') ==> !Alphanumeric(text[i - 1]))
          && var end := word[|word| - 1];
             (i + |word| < |text| && (Alphanumeric(end) || 'A' <= end <= 'Z') ==> !Alphanumeric(text[i + |word|])))
  }

  /** The text up to `k` is the text without its trailing spaces. */
  predicate TrimmedAt(uni: Unicode, text: string, k: nat) {
    k <= |text| && (forall i | k <= i < |text| :: uni.isSpace(text[i])) && (k > 0 ==> !uni.isSpace(text[k - 1]))
  }

  predicate EndsIn(text: string, word: string) {
    exists k | 0 <= k <= |text| :: text[k..] == word
  }

  /** One of the seven words that deny what follows them. */
  predicate EndsNegated(text: string) {
    || EndsIn(text, "不包含") || EndsIn(text, "不含") || EndsIn(text, "没有") || EndsIn(text, "未设") || EndsIn(text, "不设")
    || EndsIn(text, "不带") || EndsIn(text, "无")
  }

  /** The word stands there and no negation, with spaces after it, stands in front. */
  ghost predicate Affirmed(uni: Unicode, text: string, word: string, i: nat) {
    StandsAlone(uni, text, word, i) && forall k: nat | TrimmedAt(uni, text[..i], k) :: !EndsNegated(text[..k])
  }

  // ---- the match predicate ----

  lemma {:induction false} StrippedIs(uni: Unicode, t: string)
    ensures Stripped(uni, t) <= t && TrimmedAt(uni, t, |Stripped(uni, t)|)
    ensures forall k: nat | TrimmedAt(uni, t, k) :: k == |Stripped(uni, t)|
  {
    if t != [] && uni.isSpace(t[|t| - 1]) {
      var rest := t[..|t| - 1];
      StrippedIs(uni, rest);
      forall k: nat | TrimmedAt(uni, t, k) ensures TrimmedAt(uni, rest, k) {
        assert k > 0 ==> t[k - 1] == t[..|t|][k - 1];
      }
    }
  }

  lemma EndsInIs(text: string, word: string)
    ensures EndsIn(text, word) <==> EndsWith(text, word)
  {
    if EndsIn(text, word) {
      var k :| 0 <= k <= |text| && text[k..] == word;
      assert k == |text| - |word|;
    }
  }

  lemma NegatedIs(uni: Unicode, before: string)
    ensures Negated(uni, before) <==> EndsNegated(Stripped(uni, before))
  {
    hide EndsIn, EndsWith, Stripped;
    var t := Stripped(uni, before);
    EndsInIs(t, "不包含");
    EndsInIs(t, "不含");
    EndsInIs(t, "没有");
    EndsInIs(t, "未设");
    EndsInIs(t, "不设");
    EndsInIs(t, "不带");
    EndsInIs(t, "无");
  }

  lemma AffirmedIs(uni: Unicode, text: string, word: string, i: nat)
    requires word != [] && i <= |text|
    ensures Affirmed(uni, text, word, i) <==> MatchesAt(uni, text, word, i) && !Negated(uni, text[..i])
  {
    var before := text[..i];
    StrippedIs(uni, before);
    NegatedIs(uni, before);
    var k := |Stripped(uni, before)|;
    assert text[..k] == Stripped(uni, before);
  }

  /** A match is a place where the word stands and is not negated. */
  lemma {:induction false} FoundIsAffirmed(uni: Unicode, text: string, word: string, i: nat)
    requires word != [] && i <= |text| && Found(uni, text, word, i)
    ensures exists j: nat :: j <= |text| && Affirmed(uni, text, word, j)
    decreases |text| - i
  {
    hide Affirmed, Negated, Numeric;
    AffirmedIs(uni, text, word, i);
    if MatchesAt(uni, text, word, i) {
      if Negated(uni, text[..i]) {
        FoundIsAffirmed(uni, text, word, i + |word|);
      }
    } else {
      FoundIsAffirmed(uni, text, word, i + 1);
    }
  }

  /** Two occurrences of the word never share characters. */
  predicate NeverOverlaps(word: string) {
    forall d | 0 < d < |word| :: word[d..] != word[..|word| - d]
  }

  lemma SharedPart(text: string, word: string, i: nat, j: nat)
    requires i < j < i + |word| && j + |word| <= |text| && text[i..i + |word|] == word && text[j..j + |word|] == word
    ensures word[j - i..] == word[..|word| - (j - i)]
  {
    assert word[j - i..] == text[j..i + |word|];
    assert word[..|word| - (j - i)] == text[j..i + |word|];
  }

  lemma ApartBy(text: string, word: string, i: nat, j: nat)
    requires NeverOverlaps(word) && i < j && j + |word| <= |text| && text[i..i + |word|] == word && text[j..j + |word|] == word
    ensures i + |word| <= j
  {
    if j < i + |word| {
      SharedPart(text, word, i, j);
    }
  }

  lemma {:induction false} AffirmedIsFound(uni: Unicode, text: string, word: string, i: nat, j: nat)
    requires word != [] && NeverOverlaps(word) && i <= j <= |text| && Affirmed(uni, text, word, j)
    ensures Found(uni, text, word, i)
    decreases j - i
  {
    hide Affirmed, Negated, Numeric;
    AffirmedIs(uni, text, word, j);
    if i < j {
      if MatchesAt(uni, text, word, i) {
        ApartBy(text, word, i, j);
        AffirmedIsFound(uni, text, word, i + |word|, j);
      } else {
        AffirmedIsFound(uni, text, word, i + 1, j);
      }
    }
  }

  /** The text of a field as it is compared: normalised, its floors spelled one way. */
  function Compared(uni: Unicode, text: string): string { FloorText(uni.normalize(text)) }

  ghost predicate Affirms(uni: Unicode, text: string, word: string) {
    exists i: nat :: i <= |Compared(uni, text)| && Affirmed(uni, Compared(uni, text), FloorText(word), i)
  }

  /** A match means that the text affirms the word; for words whose occurrences cannot overlap, exactly that. */
  lemma MatchIsAffirmed(uni: Unicode, text: string, word: string)
    requires FloorText(word) != []
    ensures TermMatch(uni, Some(text), word) ==> Affirms(uni, text, word)
    ensures NeverOverlaps(FloorText(word)) ==> (TermMatch(uni, Some(text), word) <==> Affirms(uni, text, word))
  {
    var t, w := Compared(uni, text), FloorText(word);
    if TermMatch(uni, Some(text), word) {
      FoundIsAffirmed(uni, t, w, 0);
    }
    if NeverOverlaps(w) && Affirms(uni, text, word) {
      var i: nat :| i <= |t| && Affirmed(uni, t, w, i);
      AffirmedIsFound(uni, t, w, 0, i);
    }
  }

  // ---- the search ----

  /** Each word is matched by some field of the attachment, or by its category path. */
  predicate Wanted(uni: Unicode, a: Search.Attachment, words: seq<string>) {
    forall i | 0 <= i < |words| ::
      || TermMatch(uni, Some(a.path), words[i])
      || (a.doc.Some? && exists k | 0 <= k < |a.doc.value| :: TermMatch(uni, Some(a.doc.value[k]), words[i]))
      || (a.doc.None? && (TermMatch(uni, Some(a.filename), words[i]) || TermMatch(uni, Some(a.title), words[i])))
  }

  lemma WantedIs(uni: Unicode, a: Search.Attachment, words: seq<string>)
    ensures Search.AcceptsAll(uni, a, words) <==> Wanted(uni, a, words)
  {
    var texts, n := Search.Texts(a), |Search.Texts(a)| - 1;
    assert texts[n] == a.path;
    assert a.doc.Some? ==> n == |a.doc.value| && forall k | 0 <= k < n :: texts[k] == a.doc.value[k];
    assert a.doc.None? ==> n == 2 && texts[0] == a.filename && texts[1] == a.title;
    forall i | 0 <= i < |words|
      ensures Search.Accepts(uni, a, words[i]) <==>
              || TermMatch(uni, Some(a.path), words[i])
              || (a.doc.Some? && exists k | 0 <= k < |a.doc.value| :: TermMatch(uni, Some(a.doc.value[k]), words[i]))
              || (a.doc.None? && (TermMatch(uni, Some(a.filename), words[i]) || TermMatch(uni, Some(a.title), words[i])))
    {
      if a.doc.Some? && exists k | 0 <= k < |a.doc.value| :: TermMatch(uni, Some(a.doc.value[k]), words[i]) {
        var k :| 0 <= k < |a.doc.value| && TermMatch(uni, Some(a.doc.value[k]), words[i]);
        assert texts[k] == a.doc.value[k];
      }
    }
    assert Search.AcceptsAll(uni, a, words) ==> forall i | 0 <= i < |words| :: Search.Accepts(uni, a, words[i]);
  }

  /** Testing every row returns exactly the attachments that are wanted. */
  lemma {:induction false} ScanReturns(uni: Unicode, rows: seq<Search.Attachment>, words: seq<string>, a: Search.Attachment)
    ensures a in Search.Scan(uni, rows, words) <==> a in rows && Wanted(uni, a, words)
  {
    if rows != [] {
      ScanReturns(uni, rows[1..], words, a);
      WantedIs(uni, rows[0], words);
      assert a in rows <==> a == rows[0] || a in rows[1..];
    }
  }

  /** And it keeps their order: the rows are tested one by one. */
  lemma {:induction false} ScanInOrder(uni: Unicode, some: seq<Search.Attachment>, more: seq<Search.Attachment>, words: seq<string>)
    ensures Search.Scan(uni, some + more, words) == Search.Scan(uni, some, words) + Search.Scan(uni, more, words)
  {
    hide Search.AcceptsAll;
    if some == [] {
      assert some + more == more;
    } else {
      assert (some + more)[1..] == some[1..] + more;
      ScanInOrder(uni, some[1..], more, words);
    }
  }

  lemma {:induction false} SearchReturns(uni: Unicode, rows: seq<Search.Attachment>, words: seq<string>, a: Search.Attachment)
    ensures a in Search.Search(uni, rows, words) ==> a in rows && Wanted(uni, a, words)
  {
    if rows != [] {
      SearchReturns(uni, rows[1..], words, a);
      WantedIs(uni, rows[0], words);
    }
  }

  /** No field of the attachment, nor its category path, affirms the word. */
  ghost predicate Denies(uni: Unicode, a: Search.Attachment, word: string) {
    && !Affirms(uni, a.path, word) && !Affirms(uni, a.filename, word) && !Affirms(uni, a.title, word)
    && (a.doc.Some? ==> forall k | 0 <= k < |a.doc.value| :: !Affirms(uni, a.doc.value[k], word))
  }

  /** What mentions a word only to deny it is not returned, narrowed or not. */
  lemma DeniedIsNotReturned(uni: Unicode, rows: seq<Search.Attachment>, words: seq<string>, a: Search.Attachment, i: nat)
    requires i < |words| && FloorText(words[i]) != [] && Denies(uni, a, words[i])
    ensures a !in Search.Scan(uni, rows, words) && a !in Search.Search(uni, rows, words)
  {
    hide Affirms, TermMatch, FloorText;
    ScanReturns(uni, rows, words, a);
    SearchReturns(uni, rows, words, a);
    MatchIsAffirmed(uni, a.path, words[i]);
    MatchIsAffirmed(uni, a.filename, words[i]);
    MatchIsAffirmed(uni, a.title, words[i]);
    if a.doc.Some? {
      forall k | 0 <= k < |a.doc.value| ensures !TermMatch(uni, Some(a.doc.value[k]), words[i]) {
        MatchIsAffirmed(uni, a.doc.value[k], words[i]);
      }
    }
  }

  /** A text that says there is none of it does not match the word. */
  lemma NoneOfIt(uni: Unicode)
    requires uni.normalize("无电") == "无电" && !uni.isSpace('无')
    ensures !TermMatch(uni, Some("无电"), "电")
  {
    NoFloors("无电");
    NoFloors("电");
    var t := "无电";
    assert t[0..1] == "无" && t[1..2] == "电" && t[..1] == "无";
    assert Stripped(uni, "无") == "无";
    assert EndsWith("无", "无");
    assert !MatchesAt(uni, t, "电", 0);
    assert !Found(uni, t, "电", 2);
  }

  /** Of two occurrences that share characters only the first counts, so its negation decides. */
  lemma SecondOfTwoIsSkipped(uni: Unicode)
    requires uni.normalize("无aaa") == "无aaa" && !uni.isSpace('无') && !uni.isSpace('a') && !uni.isDigit('a')
    ensures !TermMatch(uni, Some("无aaa"), "aa")
    ensures Affirmed(uni, "无aaa", "aa", 2)
  {
    NoFloors("无aaa");
    NoFloors("aa");
    var t := "无aaa";
    assert t[0..2] == "无a" && t[1..3] == "aa" && t[2..4] == "aa" && t[..1] == "无" && t[..2] == "无a";
    assert Stripped(uni, "无") == "无" && EndsWith("无", "无");
    assert !MatchesAt(uni, t, "aa", 0);
    assert MatchesAt(uni, t, "aa", 1) && Negated(uni, t[..1]);
    assert !Found(uni, t, "aa", 3);
    AffirmedAfterLetter(uni, t);
  }

  lemma AffirmedAfterLetter(uni: Unicode, t: string)
    requires t == "无aaa" && !uni.isSpace('a') && !uni.isDigit('a')
    ensures Affirmed(uni, t, "aa", 2)
  {
    var before := t[..2];
    assert before == "无a" && t[2..4] == "aa";
    forall k: nat | TrimmedAt(uni, before, k) ensures !EndsNegated(before[..k]) {
      assert k == 2 && before[..k] == before;
      forall word | EndsIn(before, word) && word != [] ensures word[|word| - 1] == 'a' {
        var n :| 0 <= n <= 2 && before[n..] == word;
        assert before[n..][|word| - 1] == before[1];
      }
    }
  }

  lemma NoFloors(t: string)
    requires t in {"无电", "电", "无aaa", "aa"}
    ensures FloorText(t) == t
  {
    CanonicalAfter(t, "");
    assert t + "" == t;
    CanonicalIsFixed(t);
    CopiedThrough(t, "", None);
  }
}
