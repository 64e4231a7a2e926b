/**
 Where a gram can stand.  Flooring rewrites floors, so a gram found after flooring need not have
 been in the text: it may overlap a floor.  This module says when it cannot, and traces such grams
 back through both substitutions.
 */
module Standing {
  import opened Prelude
  import opened Floors
  import opened TermMatching

  /** The text starts with a floor spelled the way flooring spells it. */
  predicate TokenHere(s: string) {
    Floor1(s).Some? && HeadLength(s) == 2 && Number(Floor1(s).value) == Floor1(s).value
  }

  function TokenLength(s: string): (n: nat)
    requires TokenHere(s)
    ensures 3 < n <= |s|
  {
    2 + |Floor1(s).value| + 1
  }

  /** The gram's characters for ground do not start floors. */
  predicate GroundsFree(s: string, p: string)
    requires p <= s
  {
    forall k | 0 <= k < |p| && p[k] == '地' :: !TokenHere(s[k..])
  }

  predicate Single(r: string) { |r| == 1 && '1' <= r[0] <= '9' }

  predicate HasChinese(r: string) { exists i | 0 <= i < |r| :: ChineseDigit(r[i]) }

  /** The gram could be the end of a floor, or inside its number, and what follows. */
  predicate Tailable(p: string) {
    p != [] && (RunChar(p[0]) || p[0] == '层') && (LeadingRun(p) == p || p[|LeadingRun(p)|] == '层')
  }

  /**
   Every spelling of a floor that ends this way still has the gram: its number is not one that
   Chinese digits spell differently, and it cannot have been a b-number or would show the gram
   even then.
   */
  predicate StaysTail(s: string, p: string)
    requires p <= s && Tailable(p)
  {
    var r := LeadingRun(p);
    && !Single(r)
    && (|| r == p
        || HasChinese(r)
        || (|s| > |r| + 1 && AsciiAlnum(s[|r| + 1]))
        || (r != [] && NoGround(p) && p <= r + s[|r| + 1..]))
  }

  predicate HeadStands(s: string, p: string) { p <= s && GroundsFree(s, p) }

  predicate TailAt(s: string, x: nat, p: string)
    requires x <= |s|
  {
    HeadStands(s[x..], p) && Tailable(p) && StaysTail(s[x..], p)
  }

  /** The gram stands in a floored text: outside its floors, or at the end of one that keeps it. */
  predicate In(s: string, p: string)
    decreases |s|
  {
    && s != []
    && if TokenHere(s) then (exists x | 2 <= x < TokenLength(s) :: TailAt(s, x, p)) || In(s[TokenLength(s)..], p)
       else HeadStands(s, p) || In(s[1..], p)
  }

  // ---- floors and tokens ----

  lemma TokenSpan(s: string)
    requires TokenHere(s)
    ensures var run, n := Floor1(s).value, TokenLength(s);
      && s[..n] == "地下" + run + "层" == Token(run) && IsRun(run) && s == Token(run) + s[n..]
      && s[0] == '地' && s[1] == '下' && s[n - 1] == '层' && NoGround(s[1..n]) && 'b' !in s[..n]
      && forall i | 2 <= i < n - 1 :: RunChar(s[i])
  {
    FloorSpan(s);
    var run, n := Floor1(s).value, TokenLength(s);
    assert s[..2] == "地下";
    TokenParts(run, s[..n]);
    assert s == s[..n] + s[n..];
    forall i | 0 <= i < n ensures s[i] == s[..n][i] {
    }
  }

  lemma TokenParts(run: string, t: string)
    requires IsRun(run) && t == "地下" + run + "层"
    ensures |t| == |run| + 3 && t[0] == '地' && t[1] == '下' && t[|t| - 1] == '层' && 'b' !in t
    ensures forall i | 2 <= i < |t| - 1 :: t[i] == run[i - 2] && RunChar(t[i])
  {
  }

  lemma TokenStarts(run: string, rest: string)
    requires IsRun(run)
    ensures var s := Token(run) + rest; TokenHere(s) && Floor1(s).value == Number(run) && TokenLength(s) == |run| + 3
                                        && s[TokenLength(s)..] == rest
  {
    var n := Number(run);
    assert Token(run) + rest == "地下" + n + "层" + rest;
    TokenIsFloor("地下", n, rest);
  }

  lemma {:induction false} InAfter(q: string, rest: string, p: string)
    requires NoGround(q) && In(rest, p)
    ensures In(q + rest, p)
    decreases |q|
  {
    if q == [] {
      assert q + rest == rest;
    } else {
      ConsAppend(q, rest);
      InAfter(q[1..], rest, p);
      assert q[0] in q && (q + rest)[0] == q[0];
      NotToken(q + rest);
    }
  }

  lemma NotToken(s: string)
    requires s != [] && s[0] != '地'
    ensures !TokenHere(s)
  {
  }

  /** A gram without ground, read at a place that is not the ground itself, stands there. */
  lemma PlainIn(q: string, s: string, p: string)
    requires NoGround(q) && p != [] && p <= s && NoGround(p)
    ensures In(q + s, p)
  {
    assert s[0] == p[0] && forall k | 0 <= k < |p| :: p[k] != '地';
    NotToken(s);
    InAfter(q, s, p);
  }

  // ---- back through the second substitution ----

  lemma TokenKept2(t: string, prev: Option<char>)
    requires TokenHere(t)
    ensures var n := TokenLength(t); var out := Sub2(t, prev);
      && Floor2(t, prev).None?
      && out == t[..n] + Sub2(t[n..], Some('层'))
      && TokenHere(out) && TokenLength(out) == n && out[n..] == Sub2(t[n..], Some('层'))
  {
    TokenSpan(t);
    var n, run := TokenLength(t), Floor1(t).value;
    CopiedThrough(t[..n], t[n..], prev);
    assert t[..n] + t[n..] == t;
    TokenStarts(run, Sub2(t[n..], Some('层')));
  }

  lemma NoNewToken2(t: string, prev: Option<char>)
    requires t != [] && Floor2(t, prev).None? && Canonical(t) && !TokenHere(t)
    ensures !TokenHere(Sub2(t, prev))
  {
    var out := Sub2(t, prev);
    Sub2Copies(t, prev);
    if TokenHere(out) {
      forall p | p <= out[1..] && NoGround(p) ensures p <= t[1..] {
        CopiedPrefix2(t[1..], Some(t[0]), p);
      }
      SameFloor(t, out);
    }
  }

  lemma GroundsFreeTail(s: string, p: string)
    requires p != [] && HeadStands(s, p)
    ensures HeadStands(s[1..], p[1..])
  {
    forall k | 0 <= k < |p[1..]| && p[1..][k] == '地' ensures !TokenHere(s[1..][k..]) {
      assert p[k + 1] == '地' && s[1..][k..] == s[k + 1..];
    }
  }

  lemma GroundsFreeCons(s: string, p: string)
    requires p != [] && s != [] && p[0] == s[0] && HeadStands(s[1..], p[1..]) && (p[0] == '地' ==> !TokenHere(s))
    ensures HeadStands(s, p)
  {
    ConsPrefix(s, p);
    forall k | 0 <= k < |p| && p[k] == '地' ensures !TokenHere(s[k..]) {
      if k > 0 {
        assert p[1..][k - 1] == '地' && s[1..][k - 1..] == s[k..];
      } else {
        assert s[0..] == s;
      }
    }
  }

  lemma StartsToken2(t: string, prev: Option<char>)
    requires t != [] && Floor2(t, prev).Some?
    ensures TokenHere(Sub2(t, prev)) && Sub2(t, prev)[0] == '地'
  {
    NumberToken(t, prev);
    TokenSpan(Sub2(t, prev));
  }

  /** A gram that stands in front of the result stood in front of the text. */
  lemma {:induction false} CopiedStand2(t: string, prev: Option<char>, p: string)
    requires Canonical(t) && HeadStands(Sub2(t, prev), p)
    ensures HeadStands(t, p)
    decreases |p|
  {
    if p != [] {
      var out := Sub2(t, prev);
      assert out[0] == p[0] && out[0..] == out;
      if Floor2(t, prev).Some? {
        StartsToken2(t, prev);
      } else {
        Sub2Copies(t, prev);
        GroundsFreeTail(out, p);
        CopiedStand2(t[1..], Some(t[0]), p[1..]);
        if TokenHere(t) {
          TokenKept2(t, prev);
        }
        GroundsFreeCons(t, p);
      }
    }
  }

  lemma Drop(a: string, b: string, k: nat)
    requires k <= |a|
    ensures (a + b)[k..] == a[k..] + b
  {
  }

  lemma Join(a: string, b: string, c: string)
    ensures a + b + c == a + (b + c)
  {
  }

  /** The end of a floor, from inside its number, and what follows. */
  lemma TokenTail(m: string, rest: string, x: nat)
    requires 2 <= x < |m| + 3
    ensures |"地下" + m + "层" + rest| >= x
    ensures ("地下" + m + "层" + rest)[x..] == m[x - 2..] + "层" + rest
  {
    Join("地下" + m, "层", rest);
    Join("地下", m, "层" + rest);
    Drop("地下", m + ("层" + rest), 2);
    Drop(m, "层" + rest, x - 2);
    Join(m[x - 2..], "层", rest);
    var s := "地下" + (m + ("层" + rest));
    assert s[x..] == s[2..][x - 2..];
  }

  lemma Parts(m: string, rest: string)
    ensures var s := m + "层" + rest; s[|m|] == '层' && s[..|m|] == m && s[|m| + 1..] == rest
  {
  }

  lemma Prefix(p: string, s: string, k: nat)
    requires p <= s && k <= |p|
    ensures p[..k] == s[..k] && p[k..] <= s[k..] && p == p[..k] + p[k..]
  {
  }

  /**
   A gram read from inside a floor's number either ends within the number, or is the rest of the
   number, the word for floor, and what follows the floor.
   */
  lemma TailParts(m: string, rest: string, p: string)
    requires (forall i | 0 <= i < |m| :: RunChar(m[i])) && p <= m + "层" + rest
    ensures LeadingRun(p) == p ==> p <= m
    ensures LeadingRun(p) != p ==> LeadingRun(p) == m && |m| < |p| && p == m + "层" + p[|m| + 1..] && p[|m| + 1..] <= rest
  {
    hide LeadingRun;
    var s, r := m + "层" + rest, LeadingRun(p);
    Parts(m, rest);
    assert !RunChar(s[|m|]);
    assert forall i | 0 <= i < |r| :: RunChar(s[i]);
    assert |r| <= |m|;
    Prefix(p, s, |r|);
    Prefix(m, s, |r|);
    if r != p {
      assert p[|r|] == s[|r|] && !RunChar(s[|r|]);
      assert forall i | 0 <= i < |m| :: s[i] == m[i];
      assert |r| == |m|;
      Prefix(p, s, |m| + 1);
      assert s[..|m| + 1] == m + "层";
    }
  }

  /** After the digits of a b-number only what shows the gram anyway stays. */
  lemma AsciiTail(m: string, rest: string, p: string)
    requires (forall i | 0 <= i < |m| :: AsciiDigit(m[i])) && p <= m + "层" + rest && Tailable(p)
    requires StaysTail(m + "层" + rest, p) && (rest == [] || !AsciiAlnum(rest[0]))
    ensures NoGround(p) && p <= m + rest
  {
    TailParts(m, rest, p);
    var s := m + "层" + rest;
    if LeadingRun(p) == p {
      assert forall i | 0 <= i < |p| :: p[i] == m[i];
    } else {
      assert s[|m| + 1..] == rest;
      assert !HasChinese(m);
      assert |s| > |m| + 1 ==> s[|m| + 1] == rest[0];
    }
  }

  lemma PlainTail(m: string, rest: string, rest': string, p: string)
    requires NoGround(p) && p <= m + rest' && (forall q | NoGround(q) && q <= rest' :: q <= rest)
    ensures p <= m + rest
  {
    if |p| <= |m| {
      assert p <= m;
    } else {
      var q := p[|m|..];
      assert (m + rest')[|m|..] == rest' && q <= rest';
      assert NoGround(q);
      assert p == m + q;
    }
  }

  /** A tail of the digits of a b-number, as flooring shows it: only what shows the gram anyway stays. */
  lemma TailOfDigits(m: string, rest: string, last: Option<char>, u: string, p: string)
    requires (forall i | 0 <= i < |m| :: AsciiDigit(m[i])) && (rest == [] || !AsciiAlnum(rest[0]))
    requires u == m + "层" + Sub2(rest, last) && p <= u && Tailable(p) && StaysTail(u, p)
    ensures NoGround(p) && p <= m + rest
  {
    if rest != [] {
      Sub2Starts(rest, last);
    }
    AsciiTail(m, Sub2(rest, last), p);
    forall q | NoGround(q) && q <= Sub2(rest, last) ensures q <= rest {
      CopiedPrefix2(rest, last, q);
    }
    PlainTail(m, rest, Sub2(rest, last), p);
  }

  lemma DropTwice(s: string, d: string, k: nat)
    requires d <= s && k <= |d|
    ensures s[k..] == d[k..] + s[|d|..]
  {
    assert s == d + s[|d|..];
    Drop(d, s[|d|..], k);
  }

  /** What follows a tail decides whether it stays, and that is copied. */
  lemma StaysCopied(m: string, rest: string, rest': string, p: string)
    requires (forall i | 0 <= i < |m| :: RunChar(m[i])) && Tailable(p) && p <= m + "层" + rest && p <= m + "层" + rest'
    requires StaysTail(m + "层" + rest', p)
    requires rest' != [] && AsciiAlnum(rest'[0]) ==> rest != [] && rest[0] == rest'[0]
    requires forall q | NoGround(q) && q <= rest' :: q <= rest
    ensures StaysTail(m + "层" + rest, p)
  {
    var s, s', r := m + "层" + rest, m + "层" + rest', LeadingRun(p);
    if r != p {
      TailParts(m, rest, p);
      assert s[|m| + 1..] == rest && s'[|m| + 1..] == rest';
      assert |s'| > |m| + 1 ==> s'[|m| + 1] == rest'[0];
      assert |s| > |m| + 1 ==> s[|m| + 1] == rest[0];
      if NoGround(p) && p <= r + rest' {
        PlainTail(r, rest, rest', p);
      }
    }
  }

  lemma TokenTailText(t: string, x: nat)
    requires TokenHere(t) && 2 <= x < TokenLength(t)
    ensures t[x..] == Floor1(t).value[x - 2..] + "层" + t[TokenLength(t)..]
  {
    TokenSpan(t);
    TokenTail(Floor1(t).value, t[TokenLength(t)..], x);
  }

  lemma TokenTailKept(t: string, prev: Option<char>, x: nat)
    requires TokenHere(t) && 2 <= x < TokenLength(t)
    ensures var out := Sub2(t, prev); var rest := t[TokenLength(t)..];
      && |out| >= x && out[x..] == Sub2(t[x..], Some(t[x - 1]))
      && out[x..] == Floor1(t).value[x - 2..] + "层" + Sub2(rest, Some('层'))
  {
    var run, rest := Floor1(t).value, t[TokenLength(t)..];
    TokenKept2(t, prev);
    TokenSpan(t);
    TokenTail(run, Sub2(rest, Some('层')), x);
    NoBInFront(t, x);
    CopiedThrough(t[..x], t[x..], prev);
    Drop(t[..x], Sub2(t[x..], Some(t[x - 1])), x);
  }

  lemma NoBInFront(t: string, x: nat)
    requires TokenHere(t) && x <= TokenLength(t)
    ensures 'b' !in t[..x] && t[..x] + t[x..] == t
  {
    TokenSpan(t);
    assert forall i | 0 <= i < x :: t[i] == t[..TokenLength(t)][i];
  }

  /** The rest of a floor and what follows it, before the second substitution. */
  lemma TailOfToken2(t: string, prev: Option<char>, p: string, x: nat)
    requires Canonical(t) && TokenHere(t) && 2 <= x < TokenLength(t) && |Sub2(t, prev)| >= x && TailAt(Sub2(t, prev), x, p)
    ensures TailAt(t, x, p)
  {
    var run, rest := Floor1(t).value, t[TokenLength(t)..];
    TokenTailText(t, x);
    TokenTailKept(t, prev, x);
    CanonicalSuffix(t, x);
    CopiedStand2(t[x..], Some(t[x - 1]), p);
    if rest != [] {
      Sub2Starts(rest, Some('层'));
    }
    forall q | NoGround(q) && q <= Sub2(rest, Some('层')) ensures q <= rest {
      CopiedPrefix2(rest, Some('层'), q);
    }
    StaysCopied(run[x - 2..], rest, Sub2(rest, Some('层')), p);
  }

  lemma TailBeforeNumber(t: string, prev: Option<char>, u: string, p: string, x: nat)
    requires t != [] && p != [] && Floor2(t, prev).Some? && 2 <= x < |Floor2(t, prev).value| + 3
    requires var d := Floor2(t, prev).value; u == d[x - 2..] + "层" + Sub2(t[1 + |d|..], Some(t[|d|]))
    requires p <= u && Tailable(p) && StaysTail(u, p)
    ensures In(t, p)
  {
    hide Sub2, StaysTail, Tailable, In, LeadingRun, LeadingDigits;
    var d := Floor2(t, prev).value;
    var rest := t[1 + |d|..];
    assert rest == [] || !AsciiAlnum(rest[0]);
    TailOfDigits(d[x - 2..], rest, Some(t[|d|]), u, p);
    assert t[x - 1..] == d[x - 2..] + rest by {
      DropTwice(t[1..], d, x - 2);
    }
    PlainAfterNumber(t, prev, x - 1, p);
  }

  lemma PlainAfterNumber(t: string, prev: Option<char>, k: nat, p: string)
    requires Floor2(t, prev).Some? && k <= 1 + |Floor2(t, prev).value| && k <= |t| && p != [] && NoGround(p) && p <= t[k..]
    ensures In(t, p)
  {
    NumberHasNoGround(t, prev);
    assert t == t[..k] + t[k..];
    PlainIn(t[..k], t[k..], p);
  }

  /** What flooring makes of a b-number. */
  lemma NumberToken(t: string, prev: Option<char>)
    requires t != [] && Floor2(t, prev).Some?
    ensures var d, out := Floor2(t, prev).value, Sub2(t, prev);
      && TokenHere(out) && Floor1(out).value == d && TokenLength(out) == |d| + 3
      && out[TokenLength(out)..] == Sub2(t[1 + |d|..], Some(t[|d|]))
  {
    var d := Floor2(t, prev).value;
    Sub2Substitutes(t, prev);
    assert Number(d) == d;
    TokenStarts(d, Sub2(t[1 + |d|..], Some(t[|d|])));
  }

  lemma TailInNumber(t: string, prev: Option<char>, p: string, x: nat)
    requires t != [] && p != [] && Floor2(t, prev).Some? && TokenHere(Sub2(t, prev))
    requires 2 <= x < TokenLength(Sub2(t, prev)) && TailAt(Sub2(t, prev), x, p)
    ensures In(t, p)
  {
    NumberToken(t, prev);
    TokenTailText(Sub2(t, prev), x);
    TailBeforeNumber(t, prev, Sub2(t, prev)[x..], p, x);
  }

  lemma BeforeNumber(t: string, prev: Option<char>, p: string)
    requires t != [] && p != [] && Floor2(t, prev).Some? && In(Sub2(t, prev), p)
    requires var k := 1 + |Floor2(t, prev).value|; In(Sub2(t[k..], Some(t[k - 1])), p) ==> In(t[k..], p)
    ensures In(t, p)
  {
    var k, out := 1 + |Floor2(t, prev).value|, Sub2(t, prev);
    NumberToken(t, prev);
    if x :| 2 <= x < TokenLength(out) && TailAt(out, x, p) {
      TailInNumber(t, prev, p, x);
    } else {
      assert In(t[k..], p);
      NumberHasNoGround(t, prev);
      assert t == t[..k] + t[k..];
      InAfter(t[..k], t[k..], p);
    }
  }

  lemma BeforeToken(t: string, prev: Option<char>, p: string)
    requires Canonical(t) && t != [] && p != [] && TokenHere(t) && In(Sub2(t, prev), p)
    requires var n := TokenLength(t); In(Sub2(t[n..], Some('层')), p) ==> In(t[n..], p)
    ensures In(t, p)
  {
    var out := Sub2(t, prev);
    TokenKept2(t, prev);
    if x :| 2 <= x < TokenLength(t) && TailAt(out, x, p) {
      TailOfToken2(t, prev, p, x);
    }
  }

  lemma BeforeCopy(t: string, prev: Option<char>, p: string)
    requires Canonical(t) && t != [] && p != [] && Floor2(t, prev).None? && !TokenHere(t) && In(Sub2(t, prev), p)
    requires In(Sub2(t[1..], Some(t[0])), p) ==> In(t[1..], p)
    ensures In(t, p)
  {
    NoNewToken2(t, prev);
    Sub2Copies(t, prev);
    if HeadStands(Sub2(t, prev), p) {
      CopiedStand2(t, prev, p);
    }
  }

  lemma {:induction false} StandsBefore2(t: string, prev: Option<char>, p: string)
    requires Canonical(t) && p != [] && In(Sub2(t, prev), p)
    ensures In(t, p)
    decreases |t|
  {
    if Floor2(t, prev).Some? {
      var k := 1 + |Floor2(t, prev).value|;
      CanonicalSuffix(t, k);
      if In(Sub2(t[k..], Some(t[k - 1])), p) {
        StandsBefore2(t[k..], Some(t[k - 1]), p);
      }
      BeforeNumber(t, prev, p);
    } else if TokenHere(t) {
      var n := TokenLength(t);
      CanonicalSuffix(t, n);
      if In(Sub2(t[n..], Some('层')), p) {
        StandsBefore2(t[n..], Some('层'), p);
      }
      BeforeToken(t, prev, p);
    } else {
      if In(Sub2(t[1..], Some(t[0])), p) {
        StandsBefore2(t[1..], Some(t[0]), p);
      }
      BeforeCopy(t, prev, p);
    }
  }

  lemma NumberHasNoGround(t: string, prev: Option<char>)
    requires Floor2(t, prev).Some?
    ensures var k := 1 + |Floor2(t, prev).value|; k <= |t| && forall i | 0 <= i < k :: t[i] != '地'
  {
    var d := Floor2(t, prev).value;
    assert forall i | 1 <= i < 1 + |d| :: t[i] == t[1..][i - 1] == d[i - 1];
  }

  // ---- back through the first substitution ----

  lemma StartsToken1(t: string)
    requires t != [] && Floor1(t).Some?
    ensures TokenHere(Sub1(t)) && Sub1(t)[0] == '地'
  {
    FloorToken(t);
    TokenSpan(Sub1(t));
  }

  lemma {:induction false} CopiedStand1(t: string, p: string)
    requires HeadStands(Sub1(t), p)
    ensures p <= t
    decreases |p|
  {
    if p != [] {
      var out := Sub1(t);
      assert out[0] == p[0] && out[0..] == out;
      if Floor1(t).Some? {
        StartsToken1(t);
      } else {
        Sub1Copies(t);
        GroundsFreeTail(out, p);
        CopiedStand1(t[1..], p[1..]);
        ConsPrefix(t, p);
      }
    }
  }

  /** A tail of a floor that flooring shows was in the text, unless a single Chinese digit was translated. */
  lemma TailOfRun(run: string, rest: string, tail: string, p: string, x: nat)
    requires IsRun(run) && 2 <= x < |run| + 3 && tail == Number(run)[x - 2..] + "层" + Sub1(rest)
    requires HeadStands(tail, p) && Tailable(p) && StaysTail(tail, p)
    ensures Contains(run + "层" + rest, p)
  {
    hide Sub1, StaysTail, HeadStands, Contains, LeadingRun, TokenHere, Tailable;
    var m := Number(run)[x - 2..];
    UntranslatedTail(run, rest, tail, p, x);
    assert p <= m + "层" + rest by {
      TailCopied(m, rest, p);
    }
    DropRun(run, rest, x - 2);
    PrefixContained(run + "层" + rest, x - 2, p);
  }

  lemma UntranslatedTail(run: string, rest: string, tail: string, p: string, x: nat)
    requires IsRun(run) && 2 <= x < |run| + 3 && x - 2 <= |Number(run)| && tail == Number(run)[x - 2..] + "层" + Sub1(rest)
    requires HeadStands(tail, p) && Tailable(p) && StaysTail(tail, p)
    ensures x - 2 <= |run| && Number(run)[x - 2..] == run[x - 2..]
  {
    hide Sub1, StaysTail, HeadStands, LeadingRun, TokenHere;
    if Number(run) != run {
      var m := Number(run)[x - 2..];
      HeadInFront(tail, p);
      StaysNotSingle(tail, p);
      TailParts(m, Sub1(rest), p);
      TranslatedTail(Number(run), m, x, p);
    }
  }

  lemma HeadInFront(s: string, p: string)
    requires HeadStands(s, p)
    ensures p <= s
  {
  }

  lemma StaysNotSingle(s: string, p: string)
    requires p <= s && Tailable(p) && StaysTail(s, p)
    ensures !Single(LeadingRun(p))
  {
  }

  lemma DropRun(run: string, rest: string, k: nat)
    requires k <= |run|
    ensures (run + "层" + rest)[k..] == run[k..] + "层" + rest
  {
    Join(run, "层", rest);
    Drop(run, "层" + rest, k);
    Join(run[k..], "层", rest);
  }

  lemma RunThenFloor(s: string, run: string)
    requires run <= s && |run| < |s| && s[|run|] == '层'
    ensures s == run + "层" + s[|run| + 1..]
  {
  }

  lemma TailCopied(m: string, rest: string, p: string)
    requires (forall i | 0 <= i < |m| :: RunChar(m[i])) && HeadStands(m + "层" + Sub1(rest), p)
    ensures p <= m + "层" + rest
  {
    TailParts(m, Sub1(rest), p);
    if LeadingRun(p) == p {
      assert p <= m + ("层" + rest);
      Join(m, "层", rest);
    } else {
      TailRest(m + "层" + Sub1(rest), p, |m| + 1);
      Parts(m, Sub1(rest));
      CopiedStand1(rest, p[|m| + 1..]);
    }
  }

  lemma PrefixContained(t: string, k: nat, p: string)
    requires k <= |t| && p <= t[k..]
    ensures Contains(t, p)
  {
    assert t[k..k + |p|] == t[k..][..|p|];
    ContainsAt(t, p, k);
  }

  /** Nothing that stays ends with a single translated digit. */
  lemma TranslatedTail(n: string, m: string, x: nat, p: string)
    requires Single(n) && 2 <= x <= 3 && m == n[x - 2..] && p != [] && !Single(LeadingRun(p))
    requires if LeadingRun(p) == p then p <= m else LeadingRun(p) == m
    ensures x == 3
  {
    if x == 2 {
      assert m == n;
      PrefixOfOne(p, n);
    }
  }

  lemma PrefixOfOne(p: string, n: string)
    requires |n| == 1
    ensures p != [] && p <= n ==> p == n
  {
  }

  lemma {:induction false} TailRest(s: string, p: string, k: nat)
    requires HeadStands(s, p) && k <= |p|
    ensures HeadStands(s[k..], p[k..])
  {
    forall j | 0 <= j < |p[k..]| && p[k..][j] == '地' ensures !TokenHere(s[k..][j..]) {
      assert p[k + j] == '地' && s[k..][j..] == s[k + j..];
    }
  }

  lemma FloorBodyText(t: string)
    requires Floor1(t).Some?
    ensures var h, run := HeadLength(t), Floor1(t).value; t[h..] == run + "层" + t[h + |run| + 1..]
  {
    var h, run := HeadLength(t), Floor1(t).value;
    RunThenFloor(t[h..], run);
    DropDrop(t, h, |run| + 1);
  }

  lemma TailBeforeFloor(t: string, rest: string, u: string, p: string, x: nat)
    requires t != [] && Floor1(t).Some? && 2 <= x < |Floor1(t).value| + 3
    requires rest == t[HeadLength(t) + |Floor1(t).value| + 1..] && u == Number(Floor1(t).value)[x - 2..] + "层" + Sub1(rest)
    requires HeadStands(u, p) && Tailable(p) && StaysTail(u, p)
    ensures Contains(t, p)
  {
    var body := Floor1(t).value + "层" + rest;
    assert Contains(body, p) by {
      TailOfRun(Floor1(t).value, rest, u, p, x);
    }
    assert t[HeadLength(t)..] == body by {
      FloorBodyText(t);
    }
    BodyContains(t, HeadLength(t), body, p);
  }

  lemma DropDrop(s: string, i: nat, j: nat)
    requires i + j <= |s|
    ensures s[i..][j..] == s[i + j..]
  {
  }

  lemma BodyContains(t: string, h: nat, body: string, p: string)
    requires h <= |t| && t[h..] == body && Contains(body, p)
    ensures Contains(t, p)
  {
    ContainsSuffix(t, h, p);
  }

  /** What flooring makes of a Chinese floor. */
  lemma FloorToken(t: string)
    requires t != [] && Floor1(t).Some?
    ensures var run, out := Floor1(t).value, Sub1(t);
      && TokenHere(out) && Floor1(out).value == Number(run) && TokenLength(out) == |run| + 3
      && out[TokenLength(out)..] == Sub1(t[HeadLength(t) + |run| + 1..])
  {
    Sub1Substitutes(t);
    TokenStarts(Floor1(t).value, Sub1(t[HeadLength(t) + |Floor1(t).value| + 1..]));
  }

  lemma TailInFloor(t: string, p: string, x: nat)
    requires t != [] && p != [] && Floor1(t).Some? && TokenHere(Sub1(t))
    requires 2 <= x < TokenLength(Sub1(t)) && TailAt(Sub1(t), x, p)
    ensures Contains(t, p)
  {
    FloorToken(t);
    TokenTailText(Sub1(t), x);
    TailBeforeFloor(t, t[HeadLength(t) + |Floor1(t).value| + 1..], Sub1(t)[x..], p, x);
  }

  lemma BeforeFloor(t: string, rest: string, p: string)
    requires t != [] && p != [] && Floor1(t).Some? && In(Sub1(t), p)
    requires rest == t[HeadLength(t) + |Floor1(t).value| + 1..] && (In(Sub1(rest), p) ==> Contains(rest, p))
    ensures Contains(t, p)
  {
    var k, out := HeadLength(t) + |Floor1(t).value| + 1, Sub1(t);
    FloorToken(t);
    if x :| 2 <= x < TokenLength(out) && TailAt(out, x, p) {
      TailInFloor(t, p, x);
    } else {
      ContainsSuffix(t, k, p);
    }
  }

  lemma BeforeCopy1(t: string, p: string)
    requires t != [] && p != [] && Floor1(t).None? && In(Sub1(t), p)
    requires In(Sub1(t[1..]), p) ==> Contains(t[1..], p)
    ensures Contains(t, p)
  {
    NoNewFloor(t);
    Sub1Copies(t);
    if HeadStands(Sub1(t), p) {
      CopiedStand1(t, p);
    } else {
      ContainsSuffix(t, 1, p);
    }
  }

  lemma {:induction false} StandsBefore1(t: string, p: string)
    requires p != [] && In(Sub1(t), p)
    ensures Contains(t, p)
    decreases |t|
  {
    if Floor1(t).Some? {
      var rest := t[HeadLength(t) + |Floor1(t).value| + 1..];
      if In(Sub1(rest), p) {
        StandsBefore1(rest, p);
      }
      BeforeFloor(t, rest, p);
    } else {
      if In(Sub1(t[1..]), p) {
        StandsBefore1(t[1..], p);
      }
      BeforeCopy1(t, p);
    }
  }

  /** A gram that stands in a floored text was in the text, however its floors were spelled. */
  lemma StandingWasThere(t: string, p: string)
    requires p != [] && In(FloorText(t), p)
    ensures Contains(t, p)
  {
    Sub1Canonical(t);
    StandsBefore2(Sub1(t), None, p);
    StandsBefore1(t, p);
  }
}
