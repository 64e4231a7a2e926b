/**
 The match predicate of the attachment search over whole texts, and the index of 1-, 2- and
 3-grams.  NFKC and case folding, the Unicode digits and the Unicode spaces are parameters.
 */
module TermMatching {
  import opened Prelude
  import opened Floors

  datatype Unicode = Unicode(normalize: string -> string, isDigit: char -> bool, isSpace: char -> bool)

  predicate Sensible(uni: Unicode) {
    !uni.isSpace('b') && !uni.isSpace('地') && !uni.isSpace('负')
  }

  // ---- the match predicate ----

  function Stripped(uni: Unicode, t: string): string {
    if t != [] && uni.isSpace(t[|t| - 1]) then Stripped(uni, t[..|t| - 1]) else t
  }

  predicate EndsWith(t: string, s: string) { |s| <= |t| && t[|t| - |s|..] == s }

  /** The text before a match ends with a negation. */
  predicate Negated(uni: Unicode, before: string) {
    var t := Stripped(uni, before);
    EndsWith(t, "不包含") || EndsWith(t, "不含") || EndsWith(t, "没有") || EndsWith(t, "未设") || EndsWith(t, "不设")
    || EndsWith(t, "不带") || EndsWith(t, "无")
  }

  predicate Numeric(uni: Unicode, word: string) {
    exists k | 0 <= k < |word| :: uni.isDigit(word[k])
  }

  predicate Bounded(c: char) { AsciiAlnum(c) || 'A' <= c <= 'Z' }

  /** The word stands at a place of the text, and not inside a longer number or identifier. */
  predicate MatchesAt(uni: Unicode, text: string, word: string, i: nat)
    requires word != []
  {
    && i + |word| <= |text| && text[i..i + |word|] == word
    && (Numeric(uni, word) && Bounded(word[0]) && i > 0 ==> !AsciiAlnum(text[i - 1]))
    && (Numeric(uni, word) && Bounded(word[|word| - 1]) && i + |word| < |text| ==> !AsciiAlnum(text[i + |word|]))
  }

  /** Some match, of those that do not overlap, is not negated. */
  predicate Found(uni: Unicode, text: string, word: string, i: nat)
    decreases |text| - i
  {
    if word == [] then true
    else if i + |word| > |text| then false
    else if MatchesAt(uni, text, word, i) then !Negated(uni, text[..i]) || Found(uni, text, word, i + |word|)
    else Found(uni, text, word, i + 1)
  }

  predicate TermMatch(uni: Unicode, text: Option<string>, word: string) {
    Found(uni, FloorText(uni.normalize(if text.Some? then text.value else "")), FloorText(word), 0)
  }

  // ---- the index ----

  predicate Blank(uni: Unicode, t: string) {
    forall i | 0 <= i < |t| :: uni.isSpace(t[i])
  }

  function Slice(t: string, i: nat, n: nat): string
    requires i + n <= |t|
  {
    t[i..i + n]
  }

  function Grams(uni: Unicode, t: string): set<string> {
    set i: nat, n: nat | 1 <= n <= 3 && i + n <= |t| && !Blank(uni, Slice(t, i, n)) :: Slice(t, i, n)
  }

  /** The digit of a word that means one of the floors 1 to 9 below ground. */
  function SingleFloor(word: string): Option<char> {
    var f := FloorText(word);
    if |f| == 4 && f[..2] == "地下" && '1' <= f[2] <= '9' && f[3] == '层' then Some(f[2]) else None
  }

  function Chinese(n: char): char
    requires '1' <= n <= '9'
  {
    if n == '1' then '一' else if n == '2' then '二' else if n == '3' then '三' else if n == '4' then '四'
    else if n == '5' then '五' else if n == '6' then '六' else if n == '7' then '七' else if n == '8' then '八' else '九'
  }

  function FloorSpellings(n: char): seq<string>
    requires '1' <= n <= '9'
  {
    var cn := Chinese(n);
    ["b" + [n], "地下" + [n] + "层", "地下室" + [n] + "层", "地下" + [cn] + "层", "地下室" + [cn] + "层",
     "负" + [cn] + "层", "负" + [n] + "层"]
  }

  function Spellings(word: string): seq<string> {
    [word] + if SingleFloor(word).Some? then FloorSpellings(SingleFloor(word).value) else []
  }

  function Prefix3(s: string): string { if |s| <= 3 then s else s[..3] }

  /** The version has the selective gram of one of the spellings. */
  predicate InTerms(word: string, terms: set<string>) {
    exists i | 0 <= i < |Spellings(word)| :: Prefix3(Spellings(word)[i]) in terms
  }

  // ---- containment ----

  predicate Contains(t: string, p: string) {
    p <= t || (t != [] && Contains(t[1..], p))
  }

  lemma {:induction false} ContainsAt(t: string, p: string, i: nat)
    requires i + |p| <= |t| && t[i..i + |p|] == p
    ensures Contains(t, p)
  {
    if i > 0 {
      assert t[1..][i - 1..i - 1 + |p|] == t[i..i + |p|];
      ContainsAt(t[1..], p, i - 1);
    }
  }

  lemma {:induction false} PlaceOf(t: string, p: string) returns (i: nat)
    requires Contains(t, p)
    ensures i + |p| <= |t| && t[i..i + |p|] == p
  {
    if p <= t {
      i := 0;
    } else {
      var j := PlaceOf(t[1..], p);
      i := j + 1;
      assert t[i..i + |p|] == t[1..][j..j + |p|];
    }
  }

  lemma {:induction false} ContainsSuffix(t: string, n: nat, p: string)
    requires n <= |t| && Contains(t[n..], p)
    ensures Contains(t, p)
  {
    var i := PlaceOf(t[n..], p);
    assert t[n + i..n + i + |p|] == t[n..][i..i + |p|];
    ContainsAt(t, p, n + i);
  }

  /** Text without the first character of `w` does not matter in front. */
  lemma {:induction false} SkipPrefix(p: string, rest: string, w: string)
    requires w != [] && Contains(p + rest, w) && w[0] !in p
    ensures Contains(rest, w)
  {
    if p == [] {
      assert p + rest == rest;
    } else {
      assert (p + rest)[0] == p[0];
      assert (p + rest)[1..] == p[1..] + rest;
      SkipPrefix(p[1..], rest, w);
    }
  }

  lemma {:induction false} FoundContains(uni: Unicode, text: string, word: string, i: nat)
    requires Found(uni, text, word, i) && i <= |text|
    ensures Contains(text, word)
    decreases |text| - i
  {
    if word == [] {
      assert word <= text;
    } else if MatchesAt(uni, text, word, i) {
      ContainsAt(text, word, i);
    } else {
      FoundContains(uni, text, word, i + 1);
    }
  }

  lemma GramOf(uni: Unicode, t: string, s: string)
    requires Contains(t, s) && s != [] && !uni.isSpace(s[0])
    ensures Prefix3(s) in Grams(uni, t)
  {
    var i := PlaceOf(t, s);
    var n := |Prefix3(s)|;
    assert Slice(t, i, n) == t[i..i + |s|][..n] == Prefix3(s);
    assert !Blank(uni, Slice(t, i, n)) by {
      assert Slice(t, i, n)[0] == s[0];
    }
  }

  lemma GramContained(uni: Unicode, t: string, g: string)
    requires g in Grams(uni, t)
    ensures Contains(t, g)
  {
    var i: nat, n: nat :| 1 <= n <= 3 && i + n <= |t| && Slice(t, i, n) == g;
    ContainsAt(t, g, i);
  }

  lemma ContainsTrans(t: string, p: string, q: string)
    requires Contains(t, p) && Contains(p, q)
    ensures Contains(t, q)
  {
    var i := PlaceOf(t, p);
    var j := PlaceOf(p, q);
    forall k | 0 <= k < |q| ensures t[i + j + k] == q[k] {
      assert t[i..i + |p|][j + k] == p[j..j + |q|][k];
    }
    assert t[i + j..i + j + |q|] == q;
    ContainsAt(t, q, i + j);
  }

  lemma FirstContained(t: string, p: string)
    requires Contains(t, p) && p != []
    ensures p[0] in t
  {
    var i := PlaceOf(t, p);
    assert t[i] == t[i..i + |p|][0];
  }

  lemma PrefixTail(p: string, t: string)
    requires p != [] && p <= t
    ensures p[1..] <= t[1..]
  {
  }

  lemma ConsPrefix(t: string, p: string)
    requires t != [] && p != [] && t[0] == p[0] && p[1..] <= t[1..]
    ensures p <= t
  {
    assert t == [t[0]] + t[1..];
    assert p == [p[0]] + p[1..];
  }
}
