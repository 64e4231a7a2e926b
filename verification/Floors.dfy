/**
 Floors and their spellings.  Two substitutions turn every spelling of a floor below ground into
 one: first the Chinese ones, then the b-numbers.  Both work from left to right on matches that
 do not overlap, and a match takes the whole run of digits.
 */
module Floors {
  import opened Prelude

  predicate AsciiDigit(c: char) { '0' <= c <= '9' }

  predicate AsciiAlnum(c: char) { 'a' <= c <= 'z' || AsciiDigit(c) }

  predicate ChineseDigit(c: char) {
    c == '一' || c == '二' || c == '三' || c == '四' || c == '五' || c == '六' || c == '七' || c == '八' || c == '九'
  }

  predicate RunChar(c: char) { ChineseDigit(c) || AsciiDigit(c) }

  predicate IsRun(run: string) { run != [] && forall i | 0 <= i < |run| :: RunChar(run[i]) }

  function Arabic(c: char): char
    requires ChineseDigit(c)
  {
    if c == '一' then '1' else if c == '二' then '2' else if c == '三' then '3' else if c == '四' then '4'
    else if c == '五' then '5' else if c == '六' then '6' else if c == '七' then '7' else if c == '八' then '8' else '9'
  }

  /** The number of a floor token: a single Chinese digit is translated, anything else is kept. */
  function Number(run: string): (r: string)
    ensures |r| == |run|
    ensures (forall i | 0 <= i < |run| :: RunChar(run[i])) ==> forall i | 0 <= i < |r| :: RunChar(r[i])
    ensures |r| == 1 ==> !ChineseDigit(r[0])
  {
    if |run| == 1 && ChineseDigit(run[0]) then [Arabic(run[0])] else run
  }

  function Token(run: string): string { "地下" + Number(run) + "层" }

  /** The longest run of digits, Chinese or not, that the text starts with. */
  function LeadingRun(t: string): (r: string)
    ensures r <= t && (forall i | 0 <= i < |r| :: RunChar(r[i])) && (|r| < |t| ==> !RunChar(t[|r|]))
  {
    if t != [] && RunChar(t[0]) then
      assert t == [t[0]] + t[1..];
      [t[0]] + LeadingRun(t[1..])
    else []
  }

  function LeadingDigits(t: string): (r: string)
    ensures r <= t && (forall i | 0 <= i < |r| :: AsciiDigit(r[i])) && (|r| < |t| ==> !AsciiDigit(t[|r|]))
  {
    if t != [] && AsciiDigit(t[0]) then
      assert t == [t[0]] + t[1..];
      [t[0]] + LeadingDigits(t[1..])
    else []
  }

  function HeadLength(t: string): nat {
    if "地下室" <= t then 3 else if "地下" <= t then 2 else if "负" <= t then 1 else 0
  }

  /** The run of digits of the Chinese floor that the text starts with, or None. */
  function Floor1(t: string): (r: Option<string>)
    ensures r.Some? ==> HeadLength(t) > 0 && IsRun(r.value) && HeadLength(t) + |r.value| < |t|
    ensures r.Some? ==> r.value <= t[HeadLength(t)..] && t[HeadLength(t) + |r.value|] == '层'
  {
    var h := HeadLength(t);
    if h == 0 then None
    else
      var run := LeadingRun(t[h..]);
      if run != [] && h + |run| < |t| && t[h + |run|] == '层' then Some(run) else None
  }

  predicate NoAlnum(prev: Option<char>) { prev.None? || !AsciiAlnum(prev.value) }

  /** The digits of the b-number that the text starts with, or None; `prev` is the character before. */
  function Floor2(t: string, prev: Option<char>): (r: Option<string>)
    ensures r.Some? ==> NoAlnum(prev) && r.value != [] && (forall i | 0 <= i < |r.value| :: AsciiDigit(r.value[i]))
    ensures r.Some? ==> 1 + |r.value| <= |t| && t[0] == 'b' && r.value <= t[1..] && (1 + |r.value| < |t| ==> !AsciiAlnum(t[1 + |r.value|]))
  {
    if t == [] || t[0] != 'b' || !NoAlnum(prev) then None
    else
      var digits := LeadingDigits(t[1..]);
      if digits != [] && (1 + |digits| < |t| ==> !AsciiAlnum(t[1 + |digits|])) then Some(digits) else None
  }

  function Sub1(t: string): string
    decreases |t|
  {
    if t == [] then []
    else
      var f := Floor1(t);
      if f.Some? then Token(f.value) + Sub1(t[HeadLength(t) + |f.value| + 1..])
      else [t[0]] + Sub1(t[1..])
  }

  function Sub2(t: string, prev: Option<char>): string
    decreases |t|
  {
    if t == [] then []
    else
      var f := Floor2(t, prev);
      if f.Some? then Token(f.value) + Sub2(t[1 + |f.value|..], Some(t[|f.value|]))
      else [t[0]] + Sub2(t[1..], Some(t[0]))
  }

  function FloorText(t: string): string { Sub2(Sub1(t), None) }

  lemma ConsAppend(p: string, rest: string)
    requires p != []
    ensures [p[0]] + (p[1..] + rest) == p + rest
    ensures (p + rest)[1..] == p[1..] + rest
  {
  }

  // ---- what stands in front of a floor token was there before ----

  predicate NoGround(p: string) { '地' !in p }

  /** A prefix of the result without the character that starts every token is copied text. */
  lemma {:induction false} CopiedPrefix1(t: string, p: string)
    requires p <= Sub1(t) && NoGround(p)
    ensures p <= t && Sub1(t) == p + Sub1(t[|p|..])
    decreases |p|
  {
    if p == [] {
      assert t[0..] == t;
    } else {
      Copied1(t, p[0]);
      CopiedPrefix1(t[1..], p[1..]);
      assert t[1..][|p[1..]|..] == t[|p|..];
      ConsAppend(p, Sub1(t[|p|..]));
    }
  }

  lemma Sub1Starts(t: string)
    requires t != []
    ensures Sub1(t) != [] && Sub1(t)[0] == if Floor1(t).Some? then '地' else t[0]
  {
  }

  lemma Sub2Starts(t: string, prev: Option<char>)
    requires t != []
    ensures Sub2(t, prev) != [] && Sub2(t, prev)[0] == if Floor2(t, prev).Some? then '地' else t[0]
  {
  }

  lemma Sub1Copies(t: string)
    requires t != [] && Floor1(t).None?
    ensures Sub1(t) == [t[0]] + Sub1(t[1..]) && Sub1(t)[1..] == Sub1(t[1..])
  {
  }

  lemma Sub1Substitutes(t: string)
    requires t != [] && Floor1(t).Some?
    ensures var rest := t[HeadLength(t) + |Floor1(t).value| + 1..];
      |rest| < |t| && Sub1(t) == Token(Floor1(t).value) + Sub1(rest)
  {
  }

  lemma Sub2Copies(t: string, prev: Option<char>)
    requires t != [] && Floor2(t, prev).None?
    ensures Sub2(t, prev) == [t[0]] + Sub2(t[1..], Some(t[0])) && Sub2(t, prev)[1..] == Sub2(t[1..], Some(t[0]))
  {
  }

  lemma Sub2Substitutes(t: string, prev: Option<char>)
    requires t != [] && Floor2(t, prev).Some?
    ensures var n := |Floor2(t, prev).value|; var rest := t[1 + n..];
      && Sub2(t, prev) == Token(Floor2(t, prev).value) + Sub2(rest, Some(t[n]))
      && (rest == [] || !AsciiAlnum(rest[0])) && IsRun(Floor2(t, prev).value)
  {
  }

  lemma Copied1(t: string, c: char)
    requires t != [] && Sub1(t)[..1] == [c] && c != '地'
    ensures t[0] == c && Floor1(t).None? && Sub1(t)[1..] == Sub1(t[1..])
  {
    Sub1Starts(t);
    assert Sub1(t)[0] == Sub1(t)[..1][0];
    Sub1Copies(t);
  }

  lemma Copied2(t: string, prev: Option<char>, c: char)
    requires t != [] && Sub2(t, prev)[..1] == [c] && c != '地'
    ensures t[0] == c && Floor2(t, prev).None? && Sub2(t, prev)[1..] == Sub2(t[1..], Some(c))
  {
    Sub2Starts(t, prev);
    assert Sub2(t, prev)[0] == Sub2(t, prev)[..1][0];
    Sub2Copies(t, prev);
  }

  function Before(p: string, prev: Option<char>): Option<char> {
    if p == [] then prev else Some(p[|p| - 1])
  }

  lemma {:induction false} CopiedPrefix2(t: string, prev: Option<char>, p: string)
    requires p <= Sub2(t, prev) && NoGround(p)
    ensures p <= t && Sub2(t, prev) == p + Sub2(t[|p|..], Before(p, prev))
    decreases |p|
  {
    if p == [] {
      assert t[0..] == t;
    } else {
      Copied2(t, prev, p[0]);
      CopiedPrefix2(t[1..], Some(t[0]), p[1..]);
      assert t[1..][|p[1..]|..] == t[|p|..];
      assert Before(p[1..], Some(t[0])) == Before(p, prev);
      ConsAppend(p, Sub2(t[|p|..], Before(p, prev)));
    }
  }

  // ---- flooring twice changes nothing more ----

  /** Every Chinese floor in the text is spelled the way tokens are. */
  predicate Canonical(t: string) {
    t == [] || (CanonicalHere(t) && Canonical(t[1..]))
  }

  predicate CanonicalHere(t: string) {
    Floor1(t).Some? ==> HeadLength(t) == 2 && Number(Floor1(t).value) == Floor1(t).value
  }

  lemma {:induction false} RunOf(run: string, rest: string)
    requires forall i | 0 <= i < |run| :: RunChar(run[i])
    requires rest == [] || !RunChar(rest[0])
    ensures LeadingRun(run + rest) == run
  {
    if run != [] {
      assert (run + rest)[1..] == run[1..] + rest;
      RunOf(run[1..], rest);
    }
  }

  lemma {:induction false} DigitsOf(run: string, rest: string)
    requires forall i | 0 <= i < |run| :: AsciiDigit(run[i])
    requires rest == [] || !AsciiDigit(rest[0])
    ensures LeadingDigits(run + rest) == run
  {
    if run != [] {
      assert (run + rest)[1..] == run[1..] + rest;
      DigitsOf(run[1..], rest);
    }
  }

  predicate IsHead(head: string) { head == "地下" || head == "地下室" || head == "负" }

  lemma HeadOf(head: string, run: string, rest: string)
    requires IsRun(run) && IsHead(head)
    ensures HeadLength(head + run + rest) == |head|
  {
    var t := head + run + rest;
    assert t[0] == head[0] && t[|head|] == run[0];
    assert t[..|head|] == head;
    assert head == "地下" ==> t[1] == '下' && t[2] == run[0] && !("地下室" <= t);
  }

  lemma RunAfterHead(t: string, h: nat, run: string, rest: string)
    requires IsRun(run) && h <= |t| && t[h..] == run + ("层" + rest)
    ensures LeadingRun(t[h..]) == run && h + |run| < |t| && t[h + |run|] == '层'
  {
    RunOf(run, "层" + rest);
    assert t[h + |run|] == t[h..][|run|];
  }

  /** A token, in front of anything, is a floor with the token's own number. */
  lemma TokenIsFloor(head: string, run: string, rest: string)
    requires IsRun(run) && IsHead(head)
    ensures HeadLength(head + run + "层" + rest) == |head| && Floor1(head + run + "层" + rest) == Some(run)
  {
    var t := head + run + "层" + rest;
    assert t == head + run + ("层" + rest);
    HeadOf(head, run, "层" + rest);
    RunAfterHead(t, |head|, run, rest);
  }

  lemma {:induction false} CanonicalAfter(p: string, rest: string)
    requires Canonical(rest) && NoGround(p) && '负' !in p
    ensures Canonical(p + rest)
  {
    if p == [] {
      assert p + rest == rest;
    } else {
      ConsAppend(p, rest);
      CanonicalAfter(p[1..], rest);
      assert p[0] in p && (p + rest)[0] == p[0];
      NoFloorHere(p + rest);
    }
  }

  lemma NoFloorHere(t: string)
    requires t != [] && t[0] != '地' && t[0] != '负'
    ensures HeadLength(t) == 0 && CanonicalHere(t)
  {
  }

  lemma CanonicalToken(run: string, rest: string)
    requires IsRun(run) && Canonical(rest)
    ensures Canonical(Token(run) + rest)
  {
    var n := Number(run);
    var tail := "下" + n + "层";
    var t := Token(run) + rest;
    assert t[1..] == tail + rest;
    CanonicalAfter(tail, rest);
    assert t == "地下" + n + "层" + rest;
    TokenIsFloor("地下", n, rest);
  }

  /** A floor is its head, its run and the word for floor; only its first character can start a floor. */
  lemma FloorSpan(u: string)
    requires Floor1(u).Some?
    ensures var h, run := HeadLength(u), Floor1(u).value; var end := h + |run| + 1;
      && end <= |u| && u[..end] == u[..h] + run + "层" && IsHead(u[..h]) && IsRun(run)
      && NoGround(u[1..end]) && '负' !in u[1..end]
  {
    var h, run := HeadLength(u), Floor1(u).value;
    var end := h + |run| + 1;
    assert u[..end] == u[..h] + run + "层";
    assert IsHead(u[..h]);
    forall i | 1 <= i < end ensures u[i] != '地' && u[i] != '负' {
      if h <= i < h + |run| {
        assert u[i] == run[i - h];
      } else if i < h {
        assert u[i] == u[..h][i];
      }
    }
  }

  /** If text in front of unchanged characters starts with a floor, it did so before. */
  lemma SameFloor(t: string, u: string)
    requires t != [] && u != [] && t[0] == u[0] && Floor1(u).Some?
    requires forall p | p <= u[1..] && NoGround(p) && '负' !in p :: p <= t[1..]
    ensures Floor1(t) == Floor1(u) && HeadLength(t) == HeadLength(u)
  {
    FloorSpan(u);
    var h, run := HeadLength(u), Floor1(u).value;
    var end := h + |run| + 1;
    assert u[1..end] <= u[1..];
    assert u[1..end] <= t[1..];
    assert t[..end] == [t[0]] + t[1..][..end - 1];
    assert t[..end] == u[..end];
    assert t == u[..h] + run + "层" + t[end..];
    TokenIsFloor(u[..h], run, t[end..]);
  }

  lemma {:induction false} Sub1Canonical(t: string)
    ensures Canonical(Sub1(t))
    decreases |t|
  {
    if t != [] {
      if Floor1(t).Some? {
        Sub1Canonical(t[HeadLength(t) + |Floor1(t).value| + 1..]);
        SubstitutedCanonical(t);
      } else {
        Sub1Canonical(t[1..]);
        CopiedCanonical(t);
      }
    }
  }

  lemma SubstitutedCanonical(t: string)
    requires t != [] && Floor1(t).Some? && Canonical(Sub1(t[HeadLength(t) + |Floor1(t).value| + 1..]))
    ensures Canonical(Sub1(t))
  {
    Sub1Substitutes(t);
    CanonicalToken(Floor1(t).value, Sub1(t[HeadLength(t) + |Floor1(t).value| + 1..]));
  }

  lemma CopiedCanonical(t: string)
    requires t != [] && Floor1(t).None? && Canonical(Sub1(t[1..]))
    ensures Canonical(Sub1(t))
  {
    Sub1Copies(t);
    NoNewFloor(t);
  }

  lemma NoNewFloor(t: string)
    requires t != [] && Floor1(t).None?
    ensures Floor1(Sub1(t)).None?
  {
    var out := Sub1(t);
    Sub1Copies(t);
    if Floor1(out).Some? {
      forall p | p <= out[1..] && NoGround(p) ensures p <= t[1..] {
        CopiedPrefix1(t[1..], p);
      }
      SameFloor(t, out);
    }
  }

  lemma {:induction false} Sub2KeepsCanonical(t: string, prev: Option<char>)
    requires Canonical(t)
    ensures Canonical(Sub2(t, prev))
    decreases |t|
  {
    if t != [] {
      var f := Floor2(t, prev);
      if f.Some? {
        CanonicalSuffix(t, 1 + |f.value|);
        Sub2KeepsCanonical(t[1 + |f.value|..], Some(t[|f.value|]));
        CanonicalToken(f.value, Sub2(t[1 + |f.value|..], Some(t[|f.value|])));
      } else {
        var out := Sub2(t, prev);
        Sub2KeepsCanonical(t[1..], Some(t[0]));
        assert out[1..] == Sub2(t[1..], Some(t[0]));
        if Floor1(out).Some? {
          forall p | p <= out[1..] && NoGround(p) ensures p <= t[1..] {
            CopiedPrefix2(t[1..], Some(t[0]), p);
          }
          SameFloor(t, out);
        }
      }
    }
  }

  lemma {:induction false} CanonicalSuffix(t: string, n: nat)
    requires Canonical(t) && n <= |t|
    ensures Canonical(t[n..])
  {
    if n > 0 {
      CanonicalSuffix(t[1..], n - 1);
      assert t[1..][n - 1..] == t[n..];
    }
  }

  lemma CanonicalTokenIs(t: string)
    requires CanonicalHere(t) && Floor1(t).Some?
    ensures t == Token(Floor1(t).value) + t[2 + |Floor1(t).value| + 1..]
  {
    var run := Floor1(t).value;
    assert t[2..2 + |run|] == run;
    assert t == t[..2] + t[2..2 + |run|] + [t[2 + |run|]] + t[2 + |run| + 1..];
    assert t[..2] == "地下";
  }

  lemma {:induction false} CanonicalIsFixed(t: string)
    requires Canonical(t)
    ensures Sub1(t) == t
    decreases |t|
  {
    if t != [] {
      var f := Floor1(t);
      if f.Some? {
        var n := 2 + |f.value| + 1;
        CanonicalSuffix(t, n);
        CanonicalIsFixed(t[n..]);
        CanonicalTokenIs(t);
      } else {
        CanonicalIsFixed(t[1..]);
      }
    }
  }

  lemma {:induction false} Sub2Fixed(t: string, prev: Option<char>)
    ensures Sub2(Sub2(t, prev), prev) == Sub2(t, prev)
    decreases |t|
  {
    if t != [] {
      var f := Floor2(t, prev);
      if f.Some? {
        var rest, last := t[1 + |f.value|..], Some(t[|f.value|]);
        Sub2Substitutes(t, prev);
        Sub2Fixed(rest, last);
        NoMatchHere(rest, last, Some('层'));
        TokenCopied(f.value, Sub2(rest, last), prev);
      } else {
        Sub2Fixed(t[1..], Some(t[0]));
        Sub2Copies(t, prev);
        NoNewNumber(t, prev);
      }
    }
  }

  /** What follows a b-number is not one itself, whatever stands before it. */
  lemma NoMatchHere(t: string, prev: Option<char>, other: Option<char>)
    requires t == [] || !AsciiAlnum(t[0])
    ensures Sub2(t, prev) == Sub2(t, other)
    ensures Sub2(Sub2(t, prev), prev) == Sub2(Sub2(t, prev), other)
  {
  }

  lemma {:induction false} CopiedThrough(p: string, rest: string, prev: Option<char>)
    requires 'b' !in p
    ensures Sub2(p + rest, prev) == p + Sub2(rest, Before(p, prev))
    decreases |p|
  {
    if p == [] {
      assert p + rest == rest;
    } else {
      ConsAppend(p, rest);
      CopiedThrough(p[1..], rest, Some(p[0]));
      ConsAppend(p, Sub2(rest, Before(p, prev)));
    }
  }

  lemma TokenCopied(run: string, rest: string, prev: Option<char>)
    requires IsRun(run)
    ensures Sub2(Token(run) + rest, prev) == Token(run) + Sub2(rest, Some('层'))
  {
    CopiedThrough(Token(run), rest, prev);
  }

  lemma NumberIs(t: string, digits: string, prev: Option<char>)
    requires digits != [] && (forall i | 0 <= i < |digits| :: AsciiDigit(digits[i])) && "b" + digits <= t
    requires NoAlnum(prev) && (t[1 + |digits|..] == [] || !AsciiAlnum(t[1 + |digits|..][0]))
    ensures Floor2(t, prev) == Some(digits)
  {
    var rest := t[1 + |digits|..];
    assert t == "b" + digits + rest;
    assert t[1..] == digits + rest;
    DigitsOf(digits, rest);
  }

  /** No b-number is left in front of the result. */
  lemma NoNewNumber(t: string, prev: Option<char>)
    requires t != [] && Floor2(t, prev).None?
    ensures Floor2(Sub2(t, prev), prev).None?
  {
    var out := Sub2(t, prev);
    if Floor2(out, prev).Some? {
      var digits := Floor2(out, prev).value;
      var p := "b" + digits;
      CopiedPrefix2(t, prev, p);
      var u := t[|p|..];
      if u != [] {
        Sub2Starts(u, Before(p, prev));
      }
      NumberIs(t, digits, prev);
    }
  }

  /** Flooring is idempotent. */
  lemma FloorTextTwice(t: string)
    ensures FloorText(FloorText(t)) == FloorText(t)
  {
    Sub1Canonical(t);
    Sub2KeepsCanonical(Sub1(t), None);
    CanonicalIsFixed(FloorText(t));
    Sub2Fixed(Sub1(t), None);
  }
}
