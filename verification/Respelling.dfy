/**
 Floors spelled another way: from a text that flooring leaves alone, one that flooring turns into it
 and that has none of its floors spelled the same.  What such a text still has stood outside them.
 */
module Respelling {
  import opened Prelude
  import opened Floors
  import opened TermMatching
  import opened Standing
  import opened StandingWords

  // ---- a text with every floor spelled another way ----

  /** The number that makes a floor of a text that is the beginning of one. */
  function FilledRun(s: string): (run: string)
    requires Partial(s)
    ensures IsRun(run) && Number(run) == run && s <= "地下" + run + "层"
  {
    if |s| <= 2 then
      var run := "1";
      assert s <= "地下" + run + "层";
      run
    else
      var run := s[2..] + if |s| == 3 && ChineseDigit(s[2]) then "0" else "";
      assert s == "地下" + s[2..];
      assert forall i | 2 <= i < |s| :: s[2..][i - 2] == s[i];
      run
  }

  /** The text with a floor that it only begins ended. */
  function Completed(s: string): string
    decreases |s|
  {
    if s == [] then []
    else if TokenHere(s) then Token(Floor1(s).value) + Completed(s[TokenLength(s)..])
    else if Partial(s) then Token(FilledRun(s))
    else [s[0]] + Completed(s[1..])
  }

  /** A text that flooring turns into the completed one, with another spelling of every floor. */
  function Respelled(s: string): string
    decreases |s|
  {
    if s == [] then []
    else if TokenHere(s) then "负" + Floor1(s).value + "层" + Respelled(s[TokenLength(s)..])
    else if Partial(s) then "负" + FilledRun(s) + "层"
    else [s[0]] + Respelled(s[1..])
  }

  // ---- what the respelled text contains stood in the text ----

  predicate GroundClose(q: string, k: nat) {
    (k + 1 < |q| && q[k + 1] == '地') || (k + 2 < |q| && q[k + 2] == '地')
  }

  /** Every negation sign has ground close behind: it is not one that a respelled floor starts with. */
  predicate Clean(q: string) {
    forall k | 0 <= k < |q| && q[k] == '负' :: GroundClose(q, k)
  }

  lemma FloorFront(run: string, rest: string)
    requires IsRun(run)
    ensures var t := "负" + run + "层" + rest; |t| >= 3 && t[0] == '负' && t[1] != '地' && t[2] != '地'
  {
    var t := "负" + run + "层" + rest;
    assert t[1] == run[0];
    assert t[2] == if |run| > 1 then run[1] else '层';
  }

  lemma RespelledFront(s: string, q: string)
    requires s != [] && MaybeFloor(s) && q != [] && q <= Respelled(s)
    ensures !Clean(q)
  {
    if TokenHere(s) {
      TokenSpan(s);
      FloorFront(Floor1(s).value, Respelled(s[TokenLength(s)..]));
    } else {
      FloorFront(FilledRun(s), "");
    }
    assert forall i | 0 <= i < |q| :: q[i] == Respelled(s)[i];
    assert q[0] == '负' && !GroundClose(q, 0);
  }

  lemma FreeCons(s: string, p: string)
    requires p != [] && s != [] && p[0] == s[0] && FreeHere(s[1..], p[1..]) && !MaybeFloor(s)
    ensures FreeHere(s, p)
  {
    ConsPrefix(s, p);
    forall k | 0 <= k < |p| && p[k] == '地' ensures !MaybeFloor(s[k..]) {
      if k > 0 {
        assert p[1..][k - 1] == '地' && s[1..][k - 1..] == s[k..];
      } else {
        assert s[0..] == s;
      }
    }
  }

  lemma CleanTail(q: string)
    requires q != [] && Clean(q)
    ensures Clean(q[1..])
  {
    forall k | 0 <= k < |q[1..]| && q[1..][k] == '负' ensures GroundClose(q[1..], k) {
      assert q[k + 1] == '负' && GroundClose(q, k + 1);
    }
  }

  /** What stands in front of a respelled text stands in front of the text. */
  lemma {:induction false} FrontWasThere(s: string, q: string)
    requires q <= Respelled(s) && Clean(q)
    ensures FreeHere(s, q)
    decreases |q|
  {
    if q != [] {
      assert Respelled(s)[0] == q[0];
      if MaybeFloor(s) {
        RespelledFront(s, q);
      } else {
        assert Respelled(s)[1..] == Respelled(s[1..]);
        PrefixTail(q, Respelled(s));
        CleanTail(q);
        FrontWasThere(s[1..], q[1..]);
        FreeCons(s, q);
      }
    }
  }

  lemma FreePrepend(q: string, s: string, p: string)
    requires NoGround(q) && FreeHere(s, p)
    ensures FreeHere(q + s, q + p)
  {
    forall k | 0 <= k < |q + p| && (q + p)[k] == '地' ensures !MaybeFloor((q + s)[k..]) {
      assert k >= |q|;
      assert p[k - |q|] == '地' && (q + s)[k..] == s[k - |q|..];
    }
  }

  lemma {:induction false} CleanSuffix(q: string, k: nat)
    requires Clean(q) && k <= |q|
    ensures Clean(q[k..])
    decreases k
  {
    if k == 0 {
      assert q[0..] == q;
    } else {
      CleanTail(q);
      CleanSuffix(q[1..], k - 1);
      DropDrop(q, 1, k - 1);
    }
  }

  /** A gram read inside the number of a floor could be the end of one, and has no ground there. */
  lemma ReadInside(m: string, rest: string, p: string)
    requires (forall i | 0 <= i < |m| :: RunChar(m[i])) && p != [] && p <= m + "层" + rest
    ensures Tailable(p)
    ensures '地' in p ==> |m| < |p| && p == m + "层" + p[|m| + 1..] && p[|m| + 1..] <= rest && p[|m| + 1..] != []
  {
    TailParts(m, rest, p);
    if LeadingRun(p) == p {
      assert forall i | 0 <= i < |p| :: p[i] == m[i];
    } else {
      assert p[0] == (m + "层" + rest)[0];
      if p[|m| + 1..] == [] {
        assert p == m + "层";
      }
    }
  }

  lemma FloorBody(run: string, rest: string, y: nat)
    requires 1 <= y < |run| + 2
    ensures |"负" + run + "层" + rest| >= y && ("负" + run + "层" + rest)[y..] == run[y - 1..] + "层" + rest
  {
    Join("负" + run, "层", rest);
    Join("负", run, "层" + rest);
    Drop("负", run + ("层" + rest), 1);
    Drop(run, "层" + rest, y - 1);
    Join(run[y - 1..], "层", rest);
    var t := "负" + (run + ("层" + rest));
    DropDrop(t, 1, y - 1);
  }

  /** A gram in a text that starts with a respelled floor is in front, inside its number, or behind it. */
  lemma AroundFloor(run: string, rest: string, p: string) returns (y: nat)
    requires Contains("负" + run + "层" + rest, p) && p != []
    ensures y == 0 ==> p <= "负" + run + "层" + rest
    ensures 1 <= y < |run| + 2 ==> p <= run[y - 1..] + "层" + rest
    ensures y >= |run| + 2 ==> Contains(rest, p)
  {
    var t := "负" + run + "层" + rest;
    y := PlaceOf(t, p);
    assert p <= t[y..];
    if 1 <= y < |run| + 2 {
      FloorBody(run, rest, y);
    } else if y >= |run| + 2 {
      var k := |run| + 2;
      assert t[k..] == rest;
      DropDrop(t, k, y - k);
      assert rest[y - k..] == t[y..];
      PrefixContained(rest, y - k, p);
    }
  }

  /** The gram is in the text at `i`, and no floor hides it there. */
  predicate PlainAt(s: string, i: nat, p: string)
    requires p != []
  {
    && i <= |s| && FreeHere(s[i..], p)
    && (p[0] == '下' && i > 0 && s[i - 1] == '地' ==> !MaybeFloor(s[i - 1..]))
  }

  lemma PlainLater(s: string, n: nat, i: nat, p: string)
    requires p != [] && 0 < n <= |s| && PlainAt(s[n..], i, p) && (s[n - 1] == '地' ==> !MaybeFloor(s[n - 1..]))
    ensures PlainAt(s, n + i, p)
  {
    DropDrop(s, n, i);
    if i > 0 {
      DropDrop(s, n, i - 1);
      assert s[n..][i - 1] == s[n + i - 1];
    }
  }

  /** A gram with ground, read inside a respelled floor, goes on in text that was copied. */
  lemma FreeInside(m: string, rest: string, v: string, p: string)
    requires (forall i | 0 <= i < |m| :: RunChar(m[i])) && p != [] && Clean(p) && ('地' in p || !Tailable(p))
    requires p <= m + "层" + Respelled(rest) && v == m + "层" + rest
    ensures FreeHere(v, p) && Tailable(p)
  {
    ReadInside(m, Respelled(rest), p);
    CleanSuffix(p, |m| + 1);
    FreeBehind(m + "层", rest, p, p[|m| + 1..]);
  }

  lemma FreeBehind(q: string, rest: string, p: string, p2: string)
    requires NoGround(q) && p == q + p2 && p2 <= Respelled(rest) && Clean(p2)
    ensures FreeHere(q + rest, p)
  {
    FrontWasThere(rest, p2);
    FreePrepend(q, rest, p2);
  }

  lemma InsideToken(s: string, y: nat, p: string)
    requires TokenHere(s) && 1 <= y < TokenLength(s) - 1 && p != [] && Clean(p) && ('地' in p || !Tailable(p))
    requires p <= Floor1(s).value[y - 1..] + "层" + Respelled(s[TokenLength(s)..])
    ensures exists i: nat :: PlainAt(s, i, p)
  {
    TokenTailText(s, y + 1);
    var v := s[y + 1..];
    FreeInside(Floor1(s).value[y - 1..], s[TokenLength(s)..], v, p);
    PlainFrom(s, y + 1, v, p);
  }

  lemma PlainFrom(s: string, i: nat, v: string, p: string)
    requires p != [] && i <= |s| && v == s[i..] && FreeHere(v, p) && p[0] != '下'
    ensures PlainAt(s, i, p)
  {
  }

  lemma InsideFilled(s: string, p: string)
    requires Partial(s) && !TokenHere(s) && p != [] && Contains(Respelled(s), p) && !(p <= Respelled(s))
    ensures Tailable(p) && '地' !in p
  {
    var run := FilledRun(s);
    assert Respelled(s) == "负" + run + "层" + "";
    var y := AroundFloor(run, "", p);
    if y < |run| + 2 {
      ReadInside(run[y - 1..], "", p);
    }
  }

  lemma RespelledToken(s: string)
    requires TokenHere(s)
    ensures Respelled(s) == "负" + Floor1(s).value + "层" + Respelled(s[TokenLength(s)..])
    ensures s[TokenLength(s) - 1] == '层'
  {
    TokenSpan(s);
  }

  lemma FrontPlain(s: string, p: string)
    requires p != [] && p <= Respelled(s) && Clean(p)
    ensures PlainAt(s, 0, p)
  {
    FrontWasThere(s, p);
    assert s[0..] == s;
  }

  /** What the respelled text contains stood in the text, outside its floors. */
  lemma {:induction false} WasThere(s: string, p: string)
    requires p != [] && Contains(Respelled(s), p) && Clean(p) && ('地' in p || !Tailable(p))
    ensures exists i: nat :: PlainAt(s, i, p)
    decreases |s|
  {
    if p <= Respelled(s) {
      FrontPlain(s, p);
    } else if TokenHere(s) {
      var n := TokenLength(s);
      RespelledToken(s);
      var y := AroundFloor(Floor1(s).value, Respelled(s[n..]), p);
      if y < n - 1 {
        InsideToken(s, y, p);
      } else {
        WasThere(s[n..], p);
        var j: nat :| PlainAt(s[n..], j, p);
        PlainLater(s, n, j, p);
      }
    } else if Partial(s) {
      InsideFilled(s, p);
    } else {
      assert Respelled(s)[1..] == Respelled(s[1..]);
      WasThere(s[1..], p);
      var j: nat :| PlainAt(s[1..], j, p);
      PlainAfterCopy(s, j, p);
    }
  }

  lemma PlainAfterCopy(s: string, j: nat, p: string)
    requires s != [] && p != [] && !MaybeFloor(s) && PlainAt(s[1..], j, p)
    ensures PlainAt(s, 1 + j, p)
  {
    assert s[0..] == s;
    PlainLater(s, 1, j, p);
  }

  // ---- the respelled text reads as the completed one ----

  lemma {:induction false} CompletedExtends(s: string)
    ensures s <= Completed(s)
    decreases |s|
  {
    if s == [] {
    } else if TokenHere(s) {
      var n := TokenLength(s);
      TokenSpan(s);
      CompletedExtends(s[n..]);
      JoinPrefix(Token(Floor1(s).value), s[n..], Completed(s[n..]));
    } else if Partial(s) {
      assert s <= "地下" + FilledRun(s) + "层";
    } else {
      CompletedExtends(s[1..]);
      JoinPrefix([s[0]], s[1..], Completed(s[1..]));
    }
  }

  lemma JoinPrefix(q: string, s: string, t: string)
    requires s <= t
    ensures q + s <= q + t
  {
  }

  lemma MinusFloor(run: string, rest: string)
    requires IsRun(run)
    ensures Sub1("负" + run + "层" + rest) == Token(run) + Sub1(rest)
  {
    var t := "负" + run + "层" + rest;
    TokenIsFloor("负", run, rest);
    Sub1Substitutes(t);
    assert t[1 + |run| + 1..] == rest;
  }

  lemma NoFloorInFront(s: string)
    requires s != [] && !MaybeFloor(s) && CanonicalHere(s)
    ensures Floor1(Respelled(s)).None?
  {
    var u := Respelled(s);
    assert u[1..] == Respelled(s[1..]);
    if Floor1(u).Some? {
      forall q | q <= u[1..] && NoGround(q) && '负' !in q ensures q <= s[1..] {
        assert Clean(q);
        FrontWasThere(s[1..], q);
      }
      SameFloor(s, u);
    }
  }

  lemma {:induction false} Unspelled1(s: string)
    requires Canonical(s)
    ensures Sub1(Respelled(s)) == Completed(s)
    decreases |s|
  {
    if s == [] {
    } else if TokenHere(s) {
      var n := TokenLength(s);
      CanonicalSuffix(s, n);
      Unspelled1(s[n..]);
      MinusFloor(Floor1(s).value, Respelled(s[n..]));
    } else if Partial(s) {
      var run := FilledRun(s);
      assert "负" + run + "层" + "" == "负" + run + "层";
      MinusFloor(run, "");
      assert Token(run) + Sub1("") == Token(run);
    } else {
      Unspelled1(s[1..]);
      NoFloorInFront(s);
      Sub1Copies(Respelled(s));
    }
  }

  lemma {:induction false} NothingToComplete(s: string)
    requires NoGround(s)
    ensures Completed(s) == s
  {
    if s != [] {
      assert s[0] in s;
      NothingToComplete(s[1..]);
    }
  }

  lemma Unsubstituted(s: string, prev: Option<char>)
    requires s != [] && Sub2(s, prev) == s
    ensures Floor2(s, prev).None? && Sub2(s[1..], Some(s[0])) == s[1..]
  {
    Sub2Starts(s, prev);
    if Floor2(s, prev).None? {
      Sub2Copies(s, prev);
    }
  }

  lemma NumberBegun(s: string, u: string, digits: string)
    requires s <= u && |s| <= 1 + |digits| <= |u| && u[..1 + |digits|] == "b" + digits
    requires forall i | 0 <= i < |digits| :: AsciiDigit(digits[i])
    ensures Completed(s) == s
  {
    assert forall i | 0 <= i < |s| :: s[i] == ("b" + digits)[i];
    NothingToComplete(s);
  }

  /** Ending a floor makes no b-number. */
  lemma NoNumberInFront(s: string, prev: Option<char>)
    requires s != [] && Floor2(s, prev).None?
    ensures Floor2(Completed(s), prev).None?
  {
    if Floor2(Completed(s), prev).Some? {
      NumberWasInFront(s, prev);
    }
  }

  lemma NumberWasInFront(s: string, prev: Option<char>)
    requires s != [] && Floor2(Completed(s), prev).Some?
    ensures Floor2(s, prev).Some?
  {
    var u := Completed(s);
    var digits := Floor2(u, prev).value;
    var k := 1 + |digits|;
    CompletedExtends(s);
    assert u[..k] == "b" + digits;
    NumberReaches(s, digits);
    assert s[..k] == u[..k];
    assert k < |s| ==> s[k..][0] == s[k] == u[k];
    NumberIs(s, digits, prev);
  }

  lemma NumberReaches(s: string, digits: string)
    requires s <= Completed(s) && 1 + |digits| <= |Completed(s)| && Completed(s)[..1 + |digits|] == "b" + digits
    requires forall i | 0 <= i < |digits| :: AsciiDigit(digits[i])
    ensures 1 + |digits| <= |s|
  {
    if |s| < 1 + |digits| {
      NumberBegun(s, Completed(s), digits);
    }
  }

  lemma {:induction false} StaysCompleted(s: string, prev: Option<char>)
    requires Sub2(s, prev) == s
    ensures Sub2(Completed(s), prev) == Completed(s)
    decreases |s|
  {
    if s == [] {
    } else if TokenHere(s) {
      var n := TokenLength(s);
      var run := Floor1(s).value;
      TokenKept2(s, prev);
      assert Sub2(s[n..], Some('层')) == s[n..];
      StaysCompleted(s[n..], Some('层'));
      TokenCopied(run, Completed(s[n..]), prev);
    } else if Partial(s) {
      var run := FilledRun(s);
      TokenCopied(run, "", prev);
      assert Token(run) + "" == Token(run);
    } else {
      Unsubstituted(s, prev);
      StaysCompleted(s[1..], Some(s[0]));
      NoNumberInFront(s, prev);
      Sub2Copies(Completed(s), prev);
    }
  }

  lemma Unspelled(s: string)
    requires FloorText(s) == s
    ensures FloorText(Respelled(s)) == Completed(s)
  {
    FlooredIsCanonical(s);
    Unspelled1(s);
    StaysCompleted(s, None);
  }

  /** A text that flooring leaves alone has no floor or b-number to substitute. */
  lemma FlooredIsCanonical(s: string)
    requires FloorText(s) == s
    ensures Canonical(s) && Sub2(s, None) == s
  {
    Sub1Canonical(s);
    Sub2KeepsCanonical(Sub1(s), None);
    CanonicalIsFixed(s);
  }

  lemma FilledBounded(s: string)
    requires Partial(s)
    ensures var t := Token(FilledRun(s)); |t| > |s| ==> !Bounded(s[|s| - 1]) || !AsciiAlnum(t[|s|])
  {
    if |s| > 2 && !(|s| == 3 && ChineseDigit(s[2])) {
      assert FilledRun(s) == s[2..];
      assert Token(FilledRun(s))[|s|] == '层';
    }
  }

  /** What follows the text when its last floor is ended does not join its last identifier. */
  lemma {:induction false} EndsBounded(s: string)
    requires s != [] && |Completed(s)| > |s|
    ensures !Bounded(s[|s| - 1]) || !AsciiAlnum(Completed(s)[|s|])
    decreases |s|
  {
    if TokenHere(s) {
      var n := TokenLength(s);
      TokenSpan(s);
      if s[n..] != [] {
        EndsBounded(s[n..]);
      }
    } else if Partial(s) {
      FilledBounded(s);
    } else if s[1..] != [] {
      EndsBounded(s[1..]);
    }
  }
}
