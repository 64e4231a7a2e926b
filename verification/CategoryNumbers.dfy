/** Sibling numbers: zero-padded codes, the order siblings are listed in, and what renumbering makes of it. */
module CategoryNumbers {
  import opened Prelude
  import opened CategoryForest

  // ---- codes ----

  predicate Digit(c: char) { '0' <= c <= '9' }

  predicate IsNumber(s: string) { s != [] && forall i | 0 <= i < |s| :: Digit(s[i]) }

  function Decimal(n: nat): (s: string)
    ensures IsNumber(s)
  {
    if n < 10 then ['0' + n as char] else Decimal(n / 10) + ['0' + (n % 10) as char]
  }

  function DigitValue(c: char): nat
    requires Digit(c)
  {
    c as nat - '0' as nat
  }

  function Parse(s: string): nat
    requires forall i | 0 <= i < |s| :: Digit(s[i])
  {
    if s == [] then 0 else Parse(s[..|s| - 1]) * 10 + DigitValue(s[|s| - 1])
  }

  function Padded(s: string, width: nat): (r: string)
    requires IsNumber(s)
    ensures IsNumber(r) && |r| == (if |s| < width then width else |s|)
    decreases width
  {
    if |s| >= width then s else ['0'] + Padded(s, width - 1)
  }

  function Max(a: nat, b: nat): nat { if a >= b then a else b }

  /** `_category_number`, without its length check. */
  function Number(position: nat, count: nat): (s: string)
    ensures IsNumber(s)
  {
    Padded(Decimal(position), Max(2, |Decimal(count)|))
  }

  lemma {:induction false} ParseDecimal(n: nat)
    ensures Parse(Decimal(n)) == n
  {
    if n >= 10 {
      ParseDecimal(n / 10);
      var s := Decimal(n);
      assert s[..|s| - 1] == Decimal(n / 10);
    }
  }

  lemma {:induction false} LeadingZero(s: string)
    requires forall i | 0 <= i < |s| :: Digit(s[i])
    ensures Parse(['0'] + s) == Parse(s)
  {
    var t := ['0'] + s;
    if s == [] {
      assert t[..0] == [];
    } else {
      assert t[..|t| - 1] == ['0'] + s[..|s| - 1];
      LeadingZero(s[..|s| - 1]);
    }
  }

  lemma {:induction false} ParsePadded(s: string, width: nat)
    requires IsNumber(s)
    ensures Parse(Padded(s, width)) == Parse(s)
    decreases width
  {
    if |s| < width {
      ParsePadded(s, width - 1);
      LeadingZero(Padded(s, width - 1));
    }
  }

  /** The code reads as the position, so different positions have different codes. */
  lemma ParseNumber(position: nat, count: nat)
    ensures Parse(Number(position, count)) == position
  {
    ParseDecimal(position);
    ParsePadded(Decimal(position), Max(2, |Decimal(count)|));
  }

  lemma NumbersDiffer(a: nat, b: nat, count: nat)
    requires a != b
    ensures Number(a, count) != Number(b, count)
  {
    ParseNumber(a, count);
    ParseNumber(b, count);
  }

  function Temporary(prefix: string, index: nat): string { prefix + Decimal(index) }

  lemma TemporariesDiffer(prefix: string, a: nat, b: nat)
    requires a != b
    ensures Temporary(prefix, a) != Temporary(prefix, b)
  {
    ParseDecimal(a);
    ParseDecimal(b);
    assert Temporary(prefix, a)[|prefix|..] == Decimal(a);
    assert Temporary(prefix, b)[|prefix|..] == Decimal(b);
  }

  predicate Marked(code: string) { code != [] && code[0] == '_' }

  // ---- the order of siblings ----

  datatype Place = Place(code: string, sortOrder: nat, version: nat)
  type Places = map<Id, Place>

  function Lower(s: string): string {
    seq(|s|, i requires 0 <= i < |s| => if 'A' <= s[i] <= 'Z' then (s[i] as int + 32) as char else s[i])
  }

  predicate StringLess(a: string, b: string) {
    b != [] && (a == [] || a[0] < b[0] || (a[0] == b[0] && StringLess(a[1..], b[1..])))
  }

  /** `_category_sibling_sort_key`: numbers by their value come first, then other codes; then names and ids. */
  predicate SortsBefore(t: Tree, places: Places, a: Id, b: Id)
    requires a in t && b in t && a in places && b in places
  {
    var x, y := places[a].code, places[b].code;
    if IsNumber(x) != IsNumber(y) then IsNumber(x)
    else if IsNumber(x) && Parse(x) != Parse(y) then Parse(x) < Parse(y)
    else if !IsNumber(x) && Lower(x) != Lower(y) then StringLess(Lower(x), Lower(y))
    else if t[a].name.shown != t[b].name.shown then StringLess(t[a].name.shown, t[b].name.shown)
    else StringLess(a.text, b.text)
  }

  predicate Distinct(rows: seq<Id>) { forall i, j | 0 <= i < j < |rows| :: rows[i] != rows[j] }

  ghost predicate AreSiblings(t: Tree, parent: Option<Id>, rows: seq<Id>) {
    Distinct(rows) && forall i :: i in rows <==> Sibling(t, parent, i)
  }

  predicate Placed(t: Tree, places: Places) { t.Keys == places.Keys }

  predicate Sorted(t: Tree, places: Places, rows: seq<Id>)
    requires Placed(t, places) && forall i | 0 <= i < |rows| :: rows[i] in t
  {
    forall i, j | 0 <= i < j < |rows| :: !SortsBefore(t, places, rows[j], rows[i])
  }

  /** The siblings as `sorted` lists them. */
  ghost predicate IsOrder(t: Tree, places: Places, parent: Option<Id>, rows: seq<Id>)
    requires Placed(t, places)
  {
    && AreSiblings(t, parent, rows)
    && (forall i | 0 <= i < |rows| :: rows[i] in t)
    && Sorted(t, places, rows)
  }

  /** Up to `k` the strings agree; there the first one ends or has the smaller character. */
  predicate PartsAt(a: string, b: string, k: nat) {
    k <= |a| && k < |b| && a[..k] == b[..k] && (k == |a| || a[k] < b[k])
  }

  lemma {:induction false} StringLessIff(a: string, b: string)
    ensures StringLess(a, b) <==> exists k: nat :: PartsAt(a, b, k)
  {
    if a == [] {
      assert b != [] ==> PartsAt(a, b, 0);
    } else if b != [] {
      StringLessIff(a[1..], b[1..]);
      if k: nat :| PartsAt(a[1..], b[1..], k) && a[0] == b[0] {
        assert a[..k + 1] == [a[0]] + a[1..][..k] && b[..k + 1] == [b[0]] + b[1..][..k];
        assert PartsAt(a, b, k + 1);
      }
      if k: nat :| PartsAt(a, b, k) && k > 0 {
        assert a[0] == a[..k][0] == b[..k][0] == b[0];
        assert a[1..][..k - 1] == a[..k][1..] && b[1..][..k - 1] == b[..k][1..];
        assert PartsAt(a[1..], b[1..], k - 1);
      }
      assert a[0] < b[0] ==> PartsAt(a, b, 0);
    }
  }

  lemma LowerIs(s: string, k: nat)
    requires k < |s|
    ensures |Lower(s)| == |s| && Lower(s)[k] == if 'A' <= s[k] <= 'Z' then 'a' + (s[k] - 'A') else s[k]
  {
  }

  /**
   In a listing numbers come first, by their values; other codes follow by their letters, whatever
   the case; names decide between equal codes and ids between equal names.
   */
  lemma ListingOrder(t: Tree, places: Places, parent: Option<Id>, rows: seq<Id>, i: nat, j: nat)
    requires Placed(t, places) && IsOrder(t, places, parent, rows) && i < j < |rows|
    ensures var x, y := places[rows[i]].code, places[rows[j]].code; var a, b := t[rows[i]].name.shown, t[rows[j]].name.shown;
      && (IsNumber(y) ==> IsNumber(x) && Parse(x) <= Parse(y))
      && (!IsNumber(x) ==> forall k: nat :: !PartsAt(Lower(y), Lower(x), k))
      && ((IsNumber(x) && IsNumber(y) && Parse(x) == Parse(y)) || (!IsNumber(x) && !IsNumber(y) && Lower(x) == Lower(y)) ==>
            (forall k: nat :: !PartsAt(b, a, k)) && (a == b ==> forall k: nat :: !PartsAt(rows[j].text, rows[i].text, k)))
  {
    hide StringLess, PartsAt, Parse, Lower, IsNumber;
    var x, y := places[rows[i]].code, places[rows[j]].code;
    StringLessIff(Lower(y), Lower(x));
    StringLessIff(t[rows[j]].name.shown, t[rows[i]].name.shown);
    StringLessIff(rows[j].text, rows[i].text);
    assert !SortsBefore(t, places, rows[j], rows[i]);
    SameNotParted(Lower(x));
    SameNotParted(t[rows[i]].name.shown);
  }

  lemma SameNotParted(s: string)
    ensures forall k: nat :: !PartsAt(s, s, k)
  {
  }

  predicate StrictlySorted(t: Tree, places: Places, rows: seq<Id>)
    requires Placed(t, places)
  {
    forall i, j | 0 <= i < j < |rows| ::
      rows[i] in t && rows[j] in t && SortsBefore(t, places, rows[i], rows[j]) && !SortsBefore(t, places, rows[j], rows[i])
  }

  /** A strict order is the only one that sorting can give. */
  lemma {:induction false} SortedIsUnique(t: Tree, places: Places, a: seq<Id>, b: seq<Id>)
    requires Placed(t, places) && (forall i | 0 <= i < |b| :: b[i] in t)
    requires Distinct(a) && Distinct(b) && forall i :: i in a <==> i in b
    requires StrictlySorted(t, places, a) && Sorted(t, places, b)
    ensures a == b
    decreases |a|
  {
    assert b != [] ==> b[0] in a;
    if a != [] {
      assert a[0] in b && b != [];
      assert b[0] in a;
      var j :| 0 <= j < |b| && b[j] == a[0];
      var k :| 0 <= k < |a| && a[k] == b[0];
      assert k == 0;
      SortedIsUnique(t, places, a[1..], b[1..]) by {
        forall i ensures i in a[1..] <==> i in b[1..] {
          assert i in a <==> i == a[0] || i in a[1..];
          assert i in b <==> i == b[0] || i in b[1..];
          assert a[0] !in a[1..] && b[0] !in b[1..];
        }
      }
      assert a == [a[0]] + a[1..];
      assert b == [b[0]] + b[1..];
    }
  }

  /** Rows carry the padded numbers of their positions. */
  predicate Numbered(places: Places, rows: seq<Id>) {
    forall k | 0 <= k < |rows| ::
      rows[k] in places && places[rows[k]].code == Number(k + 1, |rows|) && places[rows[k]].sortOrder == (k + 1) * 10
  }

  lemma NumberedIsStrict(t: Tree, places: Places, rows: seq<Id>)
    requires Placed(t, places) && Numbered(places, rows)
    ensures StrictlySorted(t, places, rows)
  {
    forall i, j | 0 <= i < j < |rows|
      ensures rows[i] in t && rows[j] in t && SortsBefore(t, places, rows[i], rows[j]) && !SortsBefore(t, places, rows[j], rows[i])
    {
      ParseNumber(i + 1, |rows|);
      ParseNumber(j + 1, |rows|);
    }
  }

  /** Once numbered, siblings are listed exactly in the order they were numbered in. */
  lemma NumberedOrder(t: Tree, places: Places, parent: Option<Id>, rows: seq<Id>, order: seq<Id>)
    requires Placed(t, places) && AreSiblings(t, parent, rows) && Numbered(places, rows)
    ensures IsOrder(t, places, parent, order) <==> order == rows
  {
    NumberedIsStrict(t, places, rows);
    forall i | 0 <= i < |rows| ensures rows[i] in t {
      assert rows[i] in rows;
    }
    if IsOrder(t, places, parent, order) {
      SortedIsUnique(t, places, rows, order);
    }
  }

  function Without(rows: seq<Id>, cat: Id): (r: seq<Id>)
    ensures forall i :: i in r <==> i in rows && i != cat
    ensures Distinct(rows) ==> Distinct(r)
  {
    if rows == [] then []
    else
      assert Distinct(rows) ==> rows[0] !in rows[1..] && Distinct(rows[1..]);
      (if rows[0] == cat then [] else [rows[0]]) + Without(rows[1..], cat)
  }

  /** A category stands at a position, and the others around it are these, in this order. */
  ghost predicate StandsAt(rows: seq<Id>, k: int, cat: Id, others: seq<Id>) {
    0 <= k < |rows| && rows[k] == cat && others == rows[..k] + rows[k + 1..]
  }

  /** The rows but for one category, in their order. */
  ghost predicate Others(rows: seq<Id>, cat: Id, others: seq<Id>) {
    if cat in rows then exists k :: StandsAt(rows, k, cat, others) else others == rows
  }

  lemma {:induction false} WithoutAbsent(rows: seq<Id>, cat: Id)
    requires cat !in rows
    ensures Without(rows, cat) == rows
  {
    if rows != [] {
      WithoutAbsent(rows[1..], cat);
    }
  }

  lemma {:induction false} WithoutAt(rows: seq<Id>, k: nat)
    requires Distinct(rows) && k < |rows|
    ensures Without(rows, rows[k]) == rows[..k] + rows[k + 1..]
  {
    if k == 0 {
      WithoutAbsent(rows[1..], rows[0]);
    } else {
      assert Distinct(rows[1..]);
      WithoutAt(rows[1..], k - 1);
      assert rows[1..][..k - 1] + rows[1..][k..] == rows[1..k] + rows[k + 1..];
      assert [rows[0]] + (rows[1..k] + rows[k + 1..]) == rows[..k] + rows[k + 1..];
    }
  }

  /** Taking a category out leaves the others in their order. */
  lemma WithoutIsOthers(rows: seq<Id>, cat: Id)
    requires Distinct(rows)
    ensures Others(rows, cat, Without(rows, cat))
    ensures |Without(rows, cat)| == |rows| - if cat in rows then 1 else 0
  {
    hide Without, Distinct;
    if cat in rows {
      var k :| 0 <= k < |rows| && rows[k] == cat;
      WithoutAt(rows, k);
      assert StandsAt(rows, k, cat, Without(rows, cat));
    } else {
      WithoutAbsent(rows, cat);
    }
  }

  // ---- how many siblings can be numbered ----

  function Pow10(digits: nat): (n: nat)
    ensures n >= 1
  {
    if digits == 0 then 1 else 10 * Pow10(digits - 1)
  }

  lemma {:induction false} DecimalIsShort(n: nat, digits: nat)
    requires n < Pow10(digits) && digits >= 1
    ensures |Decimal(n)| <= digits
  {
    if n >= 10 {
      assert Pow10(1) == 10 * Pow10(0) == 10;
      DecimalIsShort(n / 10, digits - 1);
    }
  }

  lemma {:induction false} DecimalIsLong(n: nat, digits: nat)
    requires digits >= 1 && n >= Pow10(digits - 1)
    ensures |Decimal(n)| >= digits
  {
    if digits >= 2 {
      assert n >= 10;
      DecimalIsLong(n / 10, digits - 1);
    }
  }

  /** All siblings bear codes of one length: two digits, or as many as their count has. */
  lemma NumberLength(position: nat, count: nat, digits: nat)
    requires 1 <= position <= count < Pow10(digits)
    requires digits == 2 || (digits > 2 && count >= Pow10(digits - 1))
    ensures |Number(position, count)| == digits
  {
    DecimalIsShort(position, digits);
    DecimalIsShort(count, digits);
    if digits > 2 {
      DecimalIsLong(count, digits);
    }
  }

  function MovedLast(rows: seq<Id>, at: nat): (r: seq<Id>)
    requires at < |rows|
    ensures |r| == |rows|
    ensures forall i | 0 <= i < |r| :: r[i] == rows[if i < at then i else if i < |rows| - 1 then i + 1 else at]
  {
    rows[..at] + rows[at + 1..] + [rows[at]]
  }

  lemma MovedLastSame(rows: seq<Id>, at: nat)
    requires at < |rows| && Distinct(rows)
    ensures Distinct(MovedLast(rows, at)) && forall i :: i in MovedLast(rows, at) <==> i in rows
  {
    var last := MovedLast(rows, at);
    forall i ensures i in last <==> i in rows {
      if i in rows {
        var k :| 0 <= k < |rows| && rows[k] == i;
        assert last[if k < at then k else if k == at then |rows| - 1 else k - 1] == i;
      }
    }
  }

  lemma NumberedBefore(t: Tree, places: Places, a: Id, b: Id, i: nat, j: nat, count: nat)
    requires a in t && b in t && a in places && b in places && i < j
    requires places[a].code == Number(i, count) && (places[b].code == Number(j, count) || Marked(places[b].code))
    ensures SortsBefore(t, places, a, b) && !SortsBefore(t, places, b, a)
  {
    ParseNumber(i, count);
    ParseNumber(j, count);
  }

  lemma MovedLastStrict(t: Tree, places: Places, rows: seq<Id>, at: nat)
    requires Placed(t, places) && at < |rows| && (forall i | 0 <= i < |rows| :: rows[i] in t) && Marked(places[rows[at]].code)
    requires forall k | 0 <= k < |rows| && k != at :: places[rows[k]].code == Number(k + 1, |rows|)
    ensures StrictlySorted(t, places, MovedLast(rows, at))
  {
    var last := MovedLast(rows, at);
    forall i, j | 0 <= i < j < |last|
      ensures last[i] in t && last[j] in t && SortsBefore(t, places, last[i], last[j]) && !SortsBefore(t, places, last[j], last[i])
    {
      var p, q := if i < at then i else i + 1, if j < at then j else j + 1;
      NumberedBefore(t, places, last[i], last[j], p + 1, q + 1, |rows|);
    }
  }

  /** Rows numbered but for one that kept a temporary code: it is listed last, wherever it was meant to go. */
  lemma TemporaryOrder(t: Tree, places: Places, parent: Option<Id>, rows: seq<Id>, at: nat, order: seq<Id>)
    requires Placed(t, places) && AreSiblings(t, parent, rows)
    requires at < |rows| && rows[at] in places && Marked(places[rows[at]].code)
    requires forall k | 0 <= k < |rows| && k != at :: rows[k] in places && places[rows[k]].code == Number(k + 1, |rows|)
    ensures IsOrder(t, places, parent, order) <==> order == MovedLast(rows, at)
    ensures IsOrder(t, places, parent, rows) <==> at == |rows| - 1
  {
    var last := MovedLast(rows, at);
    MovedLastSame(rows, at);
    MovedLastStrict(t, places, rows, at);
    forall i | 0 <= i < |last| ensures last[i] in t {
      assert last[i] in rows;
    }
    forall o | IsOrder(t, places, parent, o) ensures o == last {
      SortedIsUnique(t, places, last, o);
    }
    assert IsOrder(t, places, parent, last);
    if at < |rows| - 1 {
      assert last[|rows| - 1] == rows[at] != rows[|rows| - 1];
    } else {
      assert last == rows;
    }
  }
}
