/**
 Which words the narrowing serves in every text: those whose first three characters stand in the
 word's own floored text, whatever text surrounds it.
 */
module StandingWords {
  import opened Prelude
  import opened Floors
  import opened TermMatching
  import opened FloorWords
  import opened Standing

  // ---- the condition ----

  /** The text is the beginning of a floor that goes on after it. */
  predicate Partial(s: string) {
    s != [] && s[0] == '地' && (|s| == 1 || (s[1] == '下' && forall i | 2 <= i < |s| :: RunChar(s[i])))
  }

  predicate MaybeFloor(s: string) { TokenHere(s) || Partial(s) }

  /** The gram is in front, and none of its characters for ground can start a floor. */
  predicate FreeHere(s: string, p: string) {
    p <= s && forall k | 0 <= k < |p| && p[k] == '地' :: !MaybeFloor(s[k..])
  }

  /** The text breaks off inside the number of a floor. */
  predicate BreaksFloor(q: string) {
    && q != []
    && if RunChar(q[|q| - 1]) then BreaksFloor(q[..|q| - 1])
       else q[|q| - 1] == '下' && |q| > 1 && q[|q| - 2] == '地'
  }

  /** The same, or it could in some text before it. */
  predicate MayBreakFloor(q: string) {
    q == [] || if RunChar(q[|q| - 1]) then MayBreakFloor(q[..|q| - 1])
               else q[|q| - 1] == '下' && (|q| == 1 || q[|q| - 2] == '地')
  }

  /** The gram does not start inside a floor, or stays there. */
  predicate LeftClear(f: string, i: nat, p: string)
    requires i <= |f| && p != [] && p <= f[i..]
  {
    && (p[0] == '下' ==> if i == 0 then !MaybeFloor("地" + f) else f[i - 1] == '地' ==> !MaybeFloor(f[i - 1..]))
    && (Tailable(p) && MayBreakFloor(f[..i]) ==> StaysTail(f[i..], p))
  }

  predicate StandsAt(f: string, i: nat, p: string)
    requires p != []
  {
    i <= |f| && FreeHere(f[i..], p) && LeftClear(f, i, p)
  }

  predicate Stands(word: string) {
    word != [] && exists i | 0 <= i <= |FloorText(word)| :: StandsAt(FloorText(word), i, Prefix3(word))
  }

  // ---- such words lose nothing ----

  lemma FloorChars(s: string)
    requires MaybeFloor(s)
    ensures s[0] == '地' && (|s| > 1 ==> s[1] == '下') && (|s| > 2 ==> RunChar(s[2])) && (|s| > 3 ==> RunChar(s[3]) || s[3] == '层')
  {
    if TokenHere(s) {
      TokenSpan(s);
    }
  }

  /** What text starts a floor in some surroundings. */
  lemma MaybeExtended(s: string, b: string)
    requires s != [] && TokenHere(s + b)
    ensures MaybeFloor(s)
  {
    var t := s + b;
    TokenSpan(t);
    var run, n := Floor1(t).value, TokenLength(t);
    if n <= |s| {
      assert t[..n] == s[..n];
      assert s == Token(run) + s[n..];
      TokenStarts(run, s[n..]);
    } else {
      assert forall i | 0 <= i < |s| :: s[i] == t[i];
    }
  }

  /** A gram read inside a floor's number is one that could be the end of a floor. */
  lemma InsideIsTailable(u: string, j: nat, p: string)
    requires TokenHere(u) && 2 <= j < TokenLength(u) && p != [] && p <= u[j..]
    ensures Tailable(p)
  {
    var run, rest := Floor1(u).value, u[TokenLength(u)..];
    TokenTailText(u, j);
    TokenSpan(u);
    TailParts(run[j - 2..], rest, p);
    assert p[0] == u[j];
  }

  /** The gram `p`, in front of `v`, which is the text from `j` on, does not start inside a floor or stays there. */
  predicate ClearAt(u: string, j: nat, v: string, p: string)
    requires j <= |u| && p != [] && p <= v
  {
    && (p[0] == '下' && j > 0 ==> !TokenHere(u[j - 1..]))
    && (Tailable(p) && BreaksFloor(u[..j]) ==> StaysTail(v, p))
  }

  lemma ClearAfter(u: string, j: nat, v: string, p: string, n: nat)
    requires n <= j <= |u| && v == u[j..] && p != [] && p <= v && ClearAt(u, j, v, p)
    ensures v == u[n..][j - n..] && ClearAt(u[n..], j - n, v, p)
  {
    DropDrop(u, n, j - n);
    if j > n {
      DropDrop(u, n, j - n - 1);
    }
    BreaksAfter(u, j, n);
  }

  lemma BreaksAfter(u: string, j: nat, n: nat)
    requires n <= j <= |u|
    ensures BreaksFloor(u[n..][..j - n]) ==> BreaksFloor(u[..j])
  {
    assert u[n..][..j - n] == u[..j][n..];
    if BreaksFloor(u[..j][n..]) {
      BreaksLonger(u[..j], n);
    }
  }

  lemma {:induction false} BreaksLonger(q: string, n: nat)
    requires n <= |q| && BreaksFloor(q[n..])
    ensures BreaksFloor(q)
    decreases |q|
  {
    var k := |q| - 1;
    assert q[n..][k - n] == q[k];
    if RunChar(q[k]) {
      assert q[n..][..k - n] == q[..k][n..];
      BreaksLonger(q[..k], n);
    }
  }

  /** A floor cut inside its number. */
  lemma {:induction false} CutBreaks(u: string, j: nat)
    requires TokenHere(u) && 2 <= j < TokenLength(u)
    ensures BreaksFloor(u[..j])
    decreases j
  {
    TokenSpan(u);
    var q := u[..j];
    assert q[j - 1] == u[j - 1] && q[j - 2] == u[j - 2];
    if j > 2 {
      assert q[..j - 1] == u[..j - 1];
      CutBreaks(u, j - 1);
    }
  }

  lemma ClearIsInside(u: string, j: nat, v: string, p: string)
    requires TokenHere(u) && j < TokenLength(u) && v == u[j..] && p != [] && HeadStands(v, p) && ClearAt(u, j, v, p)
    ensures 2 <= j
  {
    TokenSpan(u);
    assert p[0] == u[j] && u[0..] == u && v[0..] == v;
  }

  lemma ClearInside(u: string, j: nat, v: string, p: string)
    requires TokenHere(u) && j < TokenLength(u) && v == u[j..] && p != [] && HeadStands(v, p) && ClearAt(u, j, v, p)
    ensures In(u, p)
  {
    ClearIsInside(u, j, v, p);
    InsideIsTailable(u, j, p);
    CutBreaks(u, j);
    assert TailAt(u, j, p);
  }

  function StepOf(u: string): (n: nat)
    requires u != []
    ensures 0 < n <= |u|
  {
    if TokenHere(u) then TokenLength(u) else 1
  }

  lemma InSkips(u: string, n: nat, p: string)
    requires u != [] && n == StepOf(u) && In(u[n..], p)
    ensures In(u, p)
  {
  }

  lemma InStarts(u: string, v: string, p: string)
    requires u != [] && !TokenHere(u) && v == u[0..] && HeadStands(v, p)
    ensures In(u, p)
  {
    assert v == u;
  }

  /** A gram at a clear place stands in the text, wherever the text's floors begin. */
  lemma {:induction false} ClearStands(u: string, j: nat, v: string, p: string)
    requires j <= |u| && v == u[j..] && p != [] && HeadStands(v, p) && ClearAt(u, j, v, p)
    ensures In(u, p)
    decreases |u|
  {
    var n := StepOf(u);
    if n <= j {
      ClearAfter(u, j, v, p, n);
      ClearStands(u[n..], j - n, v, p);
      InSkips(u, n, p);
    } else if TokenHere(u) {
      ClearInside(u, j, v, p);
    } else {
      InStarts(u, v, p);
    }
  }

  lemma PlaceIn(x: string, f: string, y: string, i: nat)
    requires i <= |f|
    ensures (x + f + y)[|x| + i..] == f[i..] + y
  {
    Join(x, f, y);
    assert (x + (f + y))[|x| + i..] == (f + y)[i..];
    Drop(f, y, i);
  }

  lemma FreeExtended(s: string, y: string, p: string, v: string)
    requires FreeHere(s, p) && v == s + y
    ensures HeadStands(v, p)
  {
    forall k | 0 <= k < |p| && p[k] == '地' ensures !TokenHere(v[k..]) {
      Drop(s, y, k);
      if TokenHere(v[k..]) {
        MaybeExtended(s[k..], y);
      }
    }
  }

  lemma StaysExtended(s: string, y: string, p: string)
    requires p <= s && Tailable(p) && StaysTail(s, p)
    ensures p <= s + y && StaysTail(s + y, p)
  {
    var r := LeadingRun(p);
    if |s| > |r| {
      Drop(s, y, |r| + 1);
      Join(r, s[|r| + 1..], y);
    }
  }

  lemma GroundClear(x: string, f: string, y: string, i: nat, p: string, u: string)
    requires p != [] && i < |f| && p <= f[i..] && LeftClear(f, i, p) && p[0] == '下' && u == x + f + y && |x| + i > 0
    ensures !TokenHere(u[|x| + i - 1..])
  {
    if TokenHere(u[|x| + i - 1..]) {
      GroundBefore(x, f, y, i);
    }
  }

  lemma {:induction false} BreaksAround(x: string, q: string)
    requires BreaksFloor(x + q)
    ensures MayBreakFloor(q)
    decreases |q|
  {
    if q != [] {
      var k := |q| - 1;
      var u := x + q;
      assert u[|u| - 1] == q[k];
      if RunChar(q[k]) {
        assert u[..|u| - 1] == x + q[..k];
        BreaksAround(x, q[..k]);
      } else if k > 0 {
        assert u[|u| - 2] == q[k - 1];
      }
    }
  }

  lemma TailClear(x: string, f: string, y: string, i: nat, p: string, u: string, v: string)
    requires p != [] && i < |f| && p <= f[i..] && LeftClear(f, i, p) && Tailable(p) && u == x + f + y
    requires BreaksFloor(u[..|x| + i]) && v == f[i..] + y
    ensures p <= v && StaysTail(v, p)
  {
    assert u[..|x| + i] == x + f[..i];
    BreaksAround(x, f[..i]);
    StaysExtended(f[i..], y, p);
  }

  lemma ClearAround(x: string, f: string, y: string, i: nat, p: string, u: string, v: string)
    requires p != [] && i < |f| && p <= f[i..] && LeftClear(f, i, p) && u == x + f + y && v == f[i..] + y && p <= v
    ensures ClearAt(u, |x| + i, v, p)
  {
    var j := |x| + i;
    if p[0] == '下' && j > 0 {
      GroundClear(x, f, y, i, p, u);
    }
    if Tailable(p) && BreaksFloor(u[..j]) {
      TailClear(x, f, y, i, p, u, v);
    }
  }

  /** What stands in the word's text stands in every text around it. */
  lemma StandsAround(x: string, f: string, y: string, i: nat, p: string, u: string)
    requires p != [] && StandsAt(f, i, p) && u == x + f + y
    ensures In(u, p)
  {
    PlaceIn(x, f, y, i);
    var v := u[|x| + i..];
    assert HeadStands(v, p) by {
      FreeExtended(f[i..], y, p, v);
    }
    ClearAround(x, f, y, i, p, u, v);
    ClearStands(u, |x| + i, v, p);
  }

  lemma GroundBefore(x: string, f: string, y: string, i: nat)
    requires i < |f| && |x| + i > 0 && TokenHere((x + f + y)[|x| + i - 1..])
    ensures if i == 0 then MaybeFloor("地" + f) else f[i - 1] == '地' && MaybeFloor(f[i - 1..])
  {
    if i == 0 {
      GroundInFront(x, f, y);
    } else {
      PlaceIn(x, f, y, i - 1);
      MaybeExtended(f[i - 1..], y);
      FloorChars(f[i - 1..]);
    }
  }

  lemma GroundInFront(x: string, f: string, y: string)
    requires f != [] && x != [] && TokenHere((x + f + y)[|x| - 1..])
    ensures MaybeFloor("地" + f)
  {
    var t := (x + f + y)[|x| - 1..];
    assert t[0] == '地' by {
      TokenSpan(t);
    }
    assert t == [t[0]] + f + y;
    MaybeExtended("地" + f, y);
  }

  /** Whatever the text, the narrowing finds a standing word that the text matches. */
  lemma StandingWordsLoseNothing(uni: Unicode, word: string, text: string)
    requires Stands(word) && !uni.isSpace(word[0])
    requires uni.normalize(text) == text && TermMatch(uni, Some(text), word)
    ensures InTerms(word, Grams(uni, text))
  {
    var f, p, u := FloorText(word), Prefix3(word), FloorText(text);
    assert Contains(u, f) by {
      FoundContains(uni, u, f, 0);
    }
    assert In(u, p) by {
      StandsInText(u, f, p);
    }
    StandingWasThere(text, p);
    GramOf(uni, text, p);
    assert Spellings(word)[0] == word;
  }

  lemma StandsInText(u: string, f: string, p: string)
    requires p != [] && Contains(u, f) && exists i | 0 <= i <= |f| :: StandsAt(f, i, p)
    ensures In(u, p)
  {
    var i :| 0 <= i <= |f| && StandsAt(f, i, p);
    var q := PlaceOf(u, f);
    assert u == u[..q] + f + u[q + |f|..];
    StandsAround(u[..q], f, u[q + |f|..], i, p, u);
  }

  // ---- words that have nothing to do with floors ----

  lemma PlaceStands(f: string, i: nat, v: string, p: string)
    requires i <= |f| && v == f[i..] && p != [] && p <= v && NoGround(p) && p[0] != '下'
    requires Tailable(p) ==> StaysTail(v, p)
    ensures StandsAt(f, i, p)
  {
    assert forall k | 0 <= k < |p| :: p[k] != '地';
  }

  /** Without ground, a gram that is not the end of a floor stands wherever it is. */
  lemma PlainGramStands(f: string, p: string)
    requires p != [] && Contains(f, p) && NoGround(p) && p[0] != '下'
    requires Tailable(p) ==> (p <= f && StaysTail(f, p)) || (LeadingRun(p) == p && !Single(p))
    ensures exists i: nat :: StandsAt(f, i, p)
  {
    if Tailable(p) && LeadingRun(p) != p {
      PlaceStands(f, 0, f, p);
    } else {
      var i := PlaceOf(f, p);
      assert p <= f[i..];
      PlaceStands(f, i, f[i..], p);
    }
  }

  /**
   Most words: those that do not begin like the middle of a floor and have no ground in front lose
   nothing, whatever the text, if flooring keeps their first characters together.
   */
  lemma OrdinaryWordsStand(word: string)
    requires word != [] && NoGround(Prefix3(word)) && !RunChar(word[0]) && word[0] != '下' && word[0] != '层'
    ensures Stands(word) <==> Contains(FloorText(word), Prefix3(word))
  {
    var f, p := FloorText(word), Prefix3(word);
    if Stands(word) {
      var i :| 0 <= i <= |f| && StandsAt(f, i, p);
      PrefixContained(f, i, p);
    }
    if Contains(f, p) {
      PlainGramStands(f, p);
      var i: nat :| StandsAt(f, i, p);
    }
  }
}
