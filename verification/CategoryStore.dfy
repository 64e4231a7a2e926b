/**
 The category table under create, move, renumber and delete.  The unique index on sibling codes
 is checked at every single update; an error rolls the transaction back.
 */
module CategoryStore {
  import opened Prelude
  import opened CategoryForest
  import opened CategoryNumbers

  const MaxSortOrder: nat := 999_999
  const MaxCodeLength: nat := 12

  /** The unique index: no two live siblings bear the same code. */
  predicate CodesUnique(t: Tree, places: Places) {
    && Placed(t, places)
    && forall i, j | i in t && j in t && i != j && !t[i].deleted && !t[j].deleted && t[i].parent == t[j].parent ::
         places[i].code != places[j].code
  }

  /** The row is deleted, or no other live sibling bears the code. */
  predicate CodeFree(t: Tree, places: Places, id: Id, code: string)
    requires Placed(t, places) && id in t
  {
    t[id].deleted || forall i | i in t && i != id && Sibling(t, t[id].parent, i) :: places[i].code != code
  }

  lemma CodeFreeIff(t: Tree, places: Places, id: Id, place: Place)
    requires CodesUnique(t, places) && id in t
    ensures CodeFree(t, places, id, place.code) <==> CodesUnique(t, places[id := place])
  {
    var next := places[id := place];
    if CodesUnique(t, next) && !t[id].deleted {
      forall i | i in t && i != id && Sibling(t, t[id].parent, i) ensures places[i].code != place.code {
        assert next[i].code != next[id].code;
      }
    }
  }

  /** Rows to be renumbered: all live siblings under one parent are among them. */
  ghost predicate Family(t: Tree, parent: Option<Id>, rows: seq<Id>) {
    && Distinct(rows)
    && (forall k | 0 <= k < |rows| :: rows[k] in t && t[rows[k]].parent == parent)
    && (forall i | Sibling(t, parent, i) :: i in rows)
  }

  /** A prefix no code in use starts with, as a random one does. */
  predicate Fresh(places: Places, prefix: string) {
    Marked(prefix) && forall i | i in places :: !(prefix <= places[i].code)
  }

  /** The row as it was read differs from what its position asks for. */
  predicate Differs(snapshot: Places, rows: seq<Id>, k: nat)
    requires k < |rows| && rows[k] in snapshot
  {
    snapshot[rows[k]].code != Number(k + 1, |rows|) || snapshot[rows[k]].sortOrder != (k + 1) * 10
  }

  predicate Changed(snapshot: Places, rows: seq<Id>)
    requires forall k | 0 <= k < |rows| :: rows[k] in snapshot
  {
    exists k | 0 <= k < |rows| :: Differs(snapshot, rows, k)
  }

  predicate OutOfRange(position: nat, count: nat) {
    |Number(position, count)| > MaxCodeLength || position * 10 > MaxSortOrder
  }

  predicate TooMany(rows: seq<Id>) {
    exists k | 0 < k <= |rows| :: OutOfRange(k, |rows|)
  }

  /** Siblings can be numbered up to 99,999 of them; the length of their codes never matters. */
  lemma TooManyIff(rows: seq<Id>)
    ensures TooMany(rows) <==> |rows| > 99_999
  {
    if |rows| > 99_999 {
      assert OutOfRange(|rows|, |rows|);
    } else {
      assert Pow10(5) == 100_000;
      DecimalIsShort(|rows|, 5);
      forall k | 0 < k <= |rows| ensures !OutOfRange(k, |rows|) {
        DecimalIsShort(k, 5);
      }
    }
  }

  // ---- the two phases ----

  /** The first `k` rows carry temporary codes, everything else is as before. */
  predicate TemporaryPhase(before: Places, now: Places, rows: seq<Id>, prefix: string, k: nat) {
    && now.Keys == before.Keys
    && (forall i | i in before && i !in rows :: now[i] == before[i])
    && (forall j | 0 <= j < |rows| :: rows[j] in before
          && now[rows[j]] == if j < k then before[rows[j]].(code := Temporary(prefix, j + 1)) else before[rows[j]])
  }

  function Final(before: Places, rows: seq<Id>, snapshot: Places, versioned: set<Id>, j: nat): Place
    requires j < |rows| && rows[j] in before && rows[j] in snapshot
  {
    Place(Number(j + 1, |rows|), (j + 1) * 10,
          before[rows[j]].version + if Differs(snapshot, rows, j) && rows[j] !in versioned then 1 else 0)
  }

  /** The first `k` rows have their numbers, the others still carry temporary codes. */
  predicate NumberPhase(before: Places, now: Places, rows: seq<Id>, prefix: string, snapshot: Places, versioned: set<Id>, k: nat)
    requires forall j | 0 <= j < |rows| :: rows[j] in before && rows[j] in snapshot
  {
    && now.Keys == before.Keys
    && (forall i | i in before && i !in rows :: now[i] == before[i])
    && (forall j | 0 <= j < |rows| ::
          now[rows[j]] == if j < k then Final(before, rows, snapshot, versioned, j)
                          else before[rows[j]].(code := Temporary(prefix, j + 1)))
  }

  lemma TemporaryStep(before: Places, now: Places, rows: seq<Id>, prefix: string, k: nat)
    requires k < |rows| && Distinct(rows) && TemporaryPhase(before, now, rows, prefix, k)
    ensures rows[k] in now && now[rows[k]] == before[rows[k]]
    ensures TemporaryPhase(before, now[rows[k] := now[rows[k]].(code := Temporary(prefix, k + 1))], rows, prefix, k + 1)
  {
  }

  lemma NumberStep(before: Places, now: Places, rows: seq<Id>, prefix: string, snapshot: Places, versioned: set<Id>, k: nat)
    requires forall j | 0 <= j < |rows| :: rows[j] in before && rows[j] in snapshot
    requires k < |rows| && Distinct(rows) && NumberPhase(before, now, rows, prefix, snapshot, versioned, k)
    ensures rows[k] in now && now[rows[k]].version == before[rows[k]].version
    ensures NumberPhase(before, now[rows[k] := Final(before, rows, snapshot, versioned, k)], rows, prefix, snapshot, versioned, k + 1)
  {
  }

  /** Codes that differ row by row, and are as before elsewhere, are unique. */
  lemma UniqueByRows(t: Tree, parent: Option<Id>, rows: seq<Id>, before: Places, now: Places)
    requires Family(t, parent, rows) && CodesUnique(t, before) && now.Keys == before.Keys
    requires forall i | i in before && i !in rows :: now[i] == before[i]
    requires forall k | 0 <= k < |rows| :: rows[k] in now
    requires forall a, b | 0 <= a < b < |rows| ::
               now[rows[a]].code != now[rows[b]].code || t[rows[a]].deleted || t[rows[b]].deleted
    ensures CodesUnique(t, now)
  {
    forall i, j | i in t && j in t && i != j && !t[i].deleted && !t[j].deleted && t[i].parent == t[j].parent
      ensures now[i].code != now[j].code
    {
      if t[i].parent == parent {
        assert Sibling(t, parent, i) && Sibling(t, parent, j);
        var a :| 0 <= a < |rows| && rows[a] == i;
        var b :| 0 <= b < |rows| && rows[b] == j;
      } else {
        assert i !in rows && j !in rows;
      }
    }
  }

  lemma TemporaryUnique(t: Tree, parent: Option<Id>, rows: seq<Id>, before: Places, now: Places, prefix: string, k: nat)
    requires Family(t, parent, rows) && CodesUnique(t, before) && Fresh(before, prefix)
    requires TemporaryPhase(before, now, rows, prefix, k)
    ensures CodesUnique(t, now)
  {
    forall a, b | 0 <= a < b < |rows|
      ensures now[rows[a]].code != now[rows[b]].code || t[rows[a]].deleted || t[rows[b]].deleted
    {
      if a < k {
        TemporariesDiffer(prefix, a + 1, b + 1);
        assert prefix <= Temporary(prefix, a + 1);
      }
    }
    UniqueByRows(t, parent, rows, before, now);
  }

  /** In the second phase a row carries a number of its own or a temporary code of its own. */
  lemma CodesDiffer(a: nat, b: nat, count: nat, prefix: string, x: string, y: string)
    requires a != b && Marked(prefix)
    requires x == Number(a, count) || x == Temporary(prefix, a)
    requires y == Number(b, count) || y == Temporary(prefix, b)
    ensures x != y
  {
    NumbersDiffer(a, b, count);
    TemporariesDiffer(prefix, a, b);
    assert Temporary(prefix, a)[0] == '_' == Temporary(prefix, b)[0];
    assert !IsNumber(Temporary(prefix, a)) && !IsNumber(Temporary(prefix, b));
  }

  lemma PhaseCode(before: Places, now: Places, rows: seq<Id>, prefix: string, snapshot: Places, versioned: set<Id>, k: nat, j: nat)
    requires forall i | 0 <= i < |rows| :: rows[i] in before && rows[i] in snapshot
    requires NumberPhase(before, now, rows, prefix, snapshot, versioned, k) && j < |rows|
    ensures rows[j] in now && now[rows[j]].code in {Number(j + 1, |rows|), Temporary(prefix, j + 1)}
  {
  }

  lemma PhaseCodesDiffer(before: Places, now: Places, rows: seq<Id>, prefix: string, snapshot: Places, versioned: set<Id>,
                         k: nat, a: nat, b: nat)
    requires forall i | 0 <= i < |rows| :: rows[i] in before && rows[i] in snapshot
    requires NumberPhase(before, now, rows, prefix, snapshot, versioned, k) && a < b < |rows| && Marked(prefix)
    ensures rows[a] in now && rows[b] in now && now[rows[a]].code != now[rows[b]].code
  {
    PhaseCode(before, now, rows, prefix, snapshot, versioned, k, a);
    PhaseCode(before, now, rows, prefix, snapshot, versioned, k, b);
    CodesDiffer(a + 1, b + 1, |rows|, prefix, now[rows[a]].code, now[rows[b]].code);
  }

  lemma NumberUnique(t: Tree, parent: Option<Id>, rows: seq<Id>, before: Places, now: Places, prefix: string,
                     snapshot: Places, versioned: set<Id>, k: nat)
    requires Family(t, parent, rows) && CodesUnique(t, before) && Marked(prefix)
    requires forall j | 0 <= j < |rows| :: rows[j] in before && rows[j] in snapshot
    requires NumberPhase(before, now, rows, prefix, snapshot, versioned, k)
    ensures CodesUnique(t, now)
  {
    forall a, b | 0 <= a < b < |rows| ensures now[rows[a]].code != now[rows[b]].code {
      PhaseCodesDiffer(before, now, rows, prefix, snapshot, versioned, k, a, b);
    }
    UniqueByRows(t, parent, rows, before, now);
  }

  lemma NumbersStart(before: Places, now: Places, rows: seq<Id>, prefix: string, snapshot: Places, versioned: set<Id>)
    requires forall j | 0 <= j < |rows| :: rows[j] in snapshot
    requires TemporaryPhase(before, now, rows, prefix, |rows|)
    ensures forall j | 0 <= j < |rows| :: rows[j] in before
    ensures NumberPhase(before, now, rows, prefix, snapshot, versioned, 0)
  {
  }

  /** One update of the second phase. */
  lemma NumberNext(t: Tree, parent: Option<Id>, rows: seq<Id>, before: Places, now: Places, prefix: string,
                   snapshot: Places, versioned: set<Id>, k: nat)
    requires Family(t, parent, rows) && CodesUnique(t, before) && Marked(prefix) && k < |rows|
    requires forall j | 0 <= j < |rows| :: rows[j] in before && rows[j] in snapshot
    requires NumberPhase(before, now, rows, prefix, snapshot, versioned, k)
    ensures rows[k] in t && rows[k] in now
    ensures var bump := if Differs(snapshot, rows, k) && rows[k] !in versioned then 1 else 0;
      var next := now[rows[k] := Place(Number(k + 1, |rows|), (k + 1) * 10, now[rows[k]].version + bump)];
      NumberPhase(before, next, rows, prefix, snapshot, versioned, k + 1) && CodesUnique(t, next)
  {
    NumberStep(before, now, rows, prefix, snapshot, versioned, k);
    NumberUnique(t, parent, rows, before, now[rows[k] := Final(before, rows, snapshot, versioned, k)], prefix, snapshot, versioned, k + 1);
  }

  /** The rows after renumbering. */
  predicate Rewritten(before: Places, now: Places, rows: seq<Id>, snapshot: Places, versioned: set<Id>)
    requires forall j | 0 <= j < |rows| :: rows[j] in before && rows[j] in snapshot
  {
    if Changed(snapshot, rows) then NumberPhase(before, now, rows, "", snapshot, versioned, |rows|) else now == before
  }

  /** Rows that are as they were read end up numbered, rewritten or not. */
  lemma RewrittenIsNumbered(before: Places, now: Places, rows: seq<Id>, snapshot: Places, versioned: set<Id>)
    requires forall j | 0 <= j < |rows| :: rows[j] in before && rows[j] in snapshot
    requires Rewritten(before, now, rows, snapshot, versioned)
    requires Changed(snapshot, rows)
             || forall j | 0 <= j < |rows| :: before[rows[j]].code == snapshot[rows[j]].code && before[rows[j]].sortOrder == snapshot[rows[j]].sortOrder
    ensures Numbered(now, rows)
  {
    if !Changed(snapshot, rows) {
      forall k | 0 <= k < |rows| ensures now[rows[k]].code == Number(k + 1, |rows|) && now[rows[k]].sortOrder == (k + 1) * 10 {
        assert !Differs(snapshot, rows, k);
      }
    }
  }

  // ---- versions ----

  /** A row that changed has a new version. */
  predicate Stamped(was: Place, now: Place) {
    now.version >= was.version && (now.version == was.version ==> now == was)
  }

  predicate AllStamped(a: Places, b: Places) { forall i | i in a :: i in b && Stamped(a[i], b[i]) }

  /** The same for whole rows. */
  predicate RowsStamped(t: Tree, a: Places, u: Tree, b: Places) {
    AllStamped(a, b) && forall i | i in t && i in a && i in b :: i in u && (b[i].version == a[i].version ==> u[i] == t[i])
  }

  /** Renumbering gives every row that it changes a new version, unless it was given one before. */
  lemma RewrittenStamps(before: Places, now: Places, rows: seq<Id>, snapshot: Places, versioned: set<Id>, i: Id)
    requires forall j | 0 <= j < |rows| :: rows[j] in before && rows[j] in snapshot
    requires Rewritten(before, now, rows, snapshot, versioned)
    requires i in snapshot && i in before && Stamped(snapshot[i], before[i])
    requires i in rows ==> before[i] == snapshot[i] || before[i].version > snapshot[i].version
    requires i in rows && i in versioned ==> before[i].version > snapshot[i].version
    ensures i in now && Stamped(snapshot[i], now[i])
  {
    if i in rows && Changed(snapshot, rows) {
      var k :| 0 <= k < |rows| && rows[k] == i;
      assert now[rows[k]] == Final(before, rows, snapshot, versioned, k);
    }
  }

  lemma RewrittenStampsOthers(before: Places, now: Places, rows: seq<Id>, versioned: set<Id>)
    requires forall j | 0 <= j < |rows| :: rows[j] in before
    requires Rewritten(before, now, rows, before, versioned)
    ensures forall i | i in before && i !in versioned :: i in now && Stamped(before[i], now[i])
  {
    hide Rewritten;
    forall i | i in before && i !in versioned ensures i in now && Stamped(before[i], now[i]) {
      RewrittenStamps(before, now, rows, before, versioned, i);
    }
  }

  lemma RewrittenVersion(before: Places, now: Places, rows: seq<Id>, snapshot: Places, versioned: set<Id>, i: Id)
    requires forall j | 0 <= j < |rows| :: rows[j] in before && rows[j] in snapshot
    requires Rewritten(before, now, rows, snapshot, versioned) && i in before
    ensures i in now && now[i].version >= before[i].version
  {
    if i in rows && Changed(snapshot, rows) {
      var k :| 0 <= k < |rows| && rows[k] == i;
      assert now[rows[k]] == Final(before, rows, snapshot, versioned, k);
    }
  }

  lemma AsItWas(t: Tree, places: Places)
    ensures RowsStamped(t, places, t, places)
  {
  }

  lemma RewrittenAllStamped(before: Places, now: Places, rows: seq<Id>, snapshot: Places, versioned: set<Id>)
    requires forall j | 0 <= j < |rows| :: rows[j] in before && rows[j] in snapshot
    requires Rewritten(before, now, rows, snapshot, versioned) && AllStamped(snapshot, before)
    requires forall i | i in rows && i in snapshot && i in before ::
               (before[i] == snapshot[i] && i !in versioned) || before[i].version > snapshot[i].version
    ensures AllStamped(snapshot, now)
  {
    hide Rewritten;
    forall i | i in snapshot ensures i in now && Stamped(snapshot[i], now[i]) {
      RewrittenStamps(before, now, rows, snapshot, versioned, i);
    }
  }

  // ---- what a move asks for ----

  function PlaceOf(rows: seq<Id>, i: Id): (k: nat)
    requires i in rows
    ensures k < |rows| && rows[k] == i
  {
    if rows[0] == i then 0 else 1 + PlaceOf(rows[1..], i)
  }

  function InsertedAt(rows: seq<Id>, k: nat, cat: Id): (r: seq<Id>)
    requires k <= |rows|
    ensures |r| == |rows| + 1 && r[k] == cat
    ensures forall i :: i in r <==> i == cat || i in rows
    ensures Distinct(rows) && cat !in rows ==> Distinct(r)
  {
    rows[..k] + [cat] + rows[k..]
  }

  lemma AroundInserted(rows: seq<Id>, k: nat, cat: Id)
    requires k <= |rows|
    ensures InsertedAt(rows, k, cat)[..k] + InsertedAt(rows, k, cat)[k + 1..] == rows
  {
  }

  /** The new siblings without the moved category. */
  function OtherRows(t: Tree, cat: Id, target: Option<Id>, source: seq<Id>, destination: seq<Id>): seq<Id>
    requires cat in t
  {
    if t[cat].parent == target then Without(source, cat) else destination
  }

  /** The new siblings in the order asked for: before a given one, or last. */
  function Requested(t: Tree, cat: Id, target: Option<Id>, before: Option<Id>, source: seq<Id>, destination: seq<Id>): (r: Result<seq<Id>, Error>)
    requires cat in t
    ensures r.Ok? ==>
              var rows := OtherRows(t, cat, target, source, destination);
              exists k: nat | k <= |rows| :: r.value == InsertedAt(rows, k, cat)
  {
    var rows := OtherRows(t, cat, target, source, destination);
    if before.None? then Ok(InsertedAt(rows, |rows|, cat))
    else if before.value !in t then Err(PositionNotFound)
    else if before.value == cat || t[before.value].parent != target then Err(PositionInvalid)
    else if before.value !in rows then Err(Uncaught)
    else Ok(InsertedAt(rows, PlaceOf(rows, before.value), cat))
  }

  /** The checks of a move: the new level, and the new siblings in the order asked for. */
  function MoveChecks(t: Tree, places: Places, cat: Id, target: Option<Id>, before: Option<Id>, expected: nat,
                      source: seq<Id>, destination: seq<Id>): (r: Result<(int, seq<Id>), Error>)
    requires Forest(t) && Placed(t, places) && cat in t
    ensures r.Ok? ==> MayMove(t, cat, target) == Ok(r.value.0) && Requested(t, cat, target, before, source, destination) == Ok(r.value.1)
  {
    if t[cat].mirror then Err(MirrorMoveBlocked)
    else if places[cat].version != expected then Err(VersionConflict)
    else
      var level :- MayMove(t, cat, target);
      var dest :- Requested(t, cat, target, before, source, destination);
      Ok((level, dest))
  }

  /** What a move asks of the tree and of the category to stand before. */
  ghost predicate MoveAllowed(t: Tree, places: Places, cat: Id, target: Option<Id>, before: Option<Id>, expected: nat)
    requires Forest(t) && Placed(t, places)
  {
    && cat in t && !t[cat].mirror && places[cat].version == expected
    && (target.Some? ==> target.value in t && t[target.value].active && !t[target.value].mirror && !Under(t, target.value, cat))
    && (forall i | i in t && i != cat && !t[i].deleted && t[i].parent == target :: t[i].name.folded != t[cat].name.folded)
    && (before.Some? ==> before.value in t && before.value != cat && t[before.value].parent == target && !t[before.value].deleted)
  }

  /** What each error of a move says. */
  ghost predicate MoveRefused(t: Tree, places: Places, cat: Id, target: Option<Id>, before: Option<Id>, expected: nat, error: Error)
    requires Forest(t) && Placed(t, places)
  {
    match error
    case NotFound => cat !in t
    case MirrorMoveBlocked => cat in t && t[cat].mirror
    case VersionConflict => cat in t && places[cat].version != expected
    case MoveCycle => target.Some? && target.value in t && Under(t, target.value, cat)
    case ParentNotFound => target.Some? && target.value !in t
    case ParentInactive => target.Some? && target.value in t && !t[target.value].active
    case MirrorParentForbidden => target.Some? && target.value in t && t[target.value].mirror
    case NameConflict => cat in t && exists i | i in t && i != cat && !t[i].deleted && t[i].parent == target :: t[i].name.folded == t[cat].name.folded
    case PositionNotFound => before.Some? && before.value !in t
    case PositionInvalid => before.Some? && before.value in t && (before.value == cat || t[before.value].parent != target)
    case Uncaught => before.Some? && before.value in t && t[before.value].deleted
    case _ => false
  }

  /**
   The category stands directly in front of the one it was to precede, or last, and the others are
   the siblings in their order.
   */
  ghost predicate AskedAt(siblings: seq<Id>, cat: Id, before: Option<Id>, rows: seq<Id>, k: nat) {
    && k < |rows| && rows[k] == cat && Others(siblings, cat, rows[..k] + rows[k + 1..])
    && if before.Some? then k + 1 < |rows| && rows[k + 1] == before.value else k + 1 == |rows|
  }

  /** The siblings at the place moved to, as listed before the move. */
  function NewSiblings(t: Tree, cat: Id, target: Option<Id>, source: seq<Id>, destination: seq<Id>): seq<Id>
    requires cat in t
  {
    if t[cat].parent == target then source else destination
  }

  /** The siblings of a move are few enough to be numbered. */
  predicate MoveFits(t: Tree, cat: Id, target: Option<Id>, source: seq<Id>, destination: seq<Id>)
    requires cat in t
  {
    var siblings := NewSiblings(t, cat, target, source, destination);
    && |siblings| + (if cat in siblings then 0 else 1) <= 99_999
    && (t[cat].parent != target ==> |source| - (if cat in source then 1 else 0) <= 99_999)
  }

  lemma OtherRowsAreOthers(t: Tree, cat: Id, target: Option<Id>, source: seq<Id>, destination: seq<Id>)
    requires cat in t && Distinct(source) && (t[cat].parent != target ==> cat !in destination)
    ensures Others(NewSiblings(t, cat, target, source, destination), cat, OtherRows(t, cat, target, source, destination))
  {
    WithoutIsOthers(source, cat);
  }

  lemma InsertedIsAsked(siblings: seq<Id>, cat: Id, before: Option<Id>, rows: seq<Id>, k: nat)
    requires Others(siblings, cat, rows) && k <= |rows|
    requires if before.Some? then k < |rows| && rows[k] == before.value else k == |rows|
    ensures AskedAt(siblings, cat, before, InsertedAt(rows, k, cat), k)
  {
    AroundInserted(rows, k, cat);
  }

  lemma RequestedIsAsked(t: Tree, places: Places, cat: Id, target: Option<Id>, before: Option<Id>, source: seq<Id>, destination: seq<Id>)
    requires cat in t && Placed(t, places) && IsOrder(t, places, t[cat].parent, source) && IsOrder(t, places, target, destination)
    requires Requested(t, cat, target, before, source, destination).Ok?
    ensures exists k: nat :: AskedAt(NewSiblings(t, cat, target, source, destination), cat, before,
                                     Requested(t, cat, target, before, source, destination).value, k)
  {
    hide AskedAt, Others, Sorted;
    var rows := OtherRows(t, cat, target, source, destination);
    OtherRowsAreOthers(t, cat, target, source, destination);
    var k := if before.Some? then PlaceOf(rows, before.value) else |rows|;
    InsertedIsAsked(NewSiblings(t, cat, target, source, destination), cat, before, rows, k);
  }

  lemma NameTakenIff(t: Tree, parent: Option<Id>, name: Name, cat: Id)
    ensures NameTaken(t, parent, name, Some(cat)) <==>
            exists i | i in t && i != cat && !t[i].deleted && t[i].parent == parent :: t[i].name.folded == name.folded
  {
  }

  lemma MayMoveIff(t: Tree, places: Places, cat: Id, target: Option<Id>, before: Option<Id>, expected: nat)
    requires Forest(t) && cat in t && Placed(t, places) && !t[cat].mirror && places[cat].version == expected
    requires before.Some? ==> before.value in t && before.value != cat && t[before.value].parent == target && !t[before.value].deleted
    ensures MayMove(t, cat, target).Ok? <==> MoveAllowed(t, places, cat, target, before, expected)
  {
    hide NameTaken, Forest;
    assert Under(t, cat, cat);
    NameTakenIff(t, target, t[cat].name, cat);
  }

  lemma MayMoveError(t: Tree, places: Places, cat: Id, target: Option<Id>, before: Option<Id>, expected: nat)
    requires Forest(t) && cat in t && Placed(t, places)
    requires MayMove(t, cat, target).Err?
    ensures MoveRefused(t, places, cat, target, before, expected, MayMove(t, cat, target).error)
  {
    hide NameTaken, Forest;
    assert Under(t, cat, cat);
    NameTakenIff(t, target, t[cat].name, cat);
  }

  lemma RequestedIff(t: Tree, places: Places, cat: Id, target: Option<Id>, before: Option<Id>, expected: nat, source: seq<Id>, destination: seq<Id>)
    requires Forest(t) && cat in t && Placed(t, places)
    requires IsOrder(t, places, t[cat].parent, source) && IsOrder(t, places, target, destination)
    ensures var asked := Requested(t, cat, target, before, source, destination);
      && (asked.Ok? <==> (before.Some? ==>
           before.value in t && before.value != cat && t[before.value].parent == target && !t[before.value].deleted))
      && (asked.Err? ==> MoveRefused(t, places, cat, target, before, expected, asked.error))
  {
    hide Sorted, Forest, MoveAllowed;
    OtherRowsAre(t, places, cat, target, source, destination);
  }

  lemma UnknownIsRefused(t: Tree, places: Places, cat: Id, target: Option<Id>, before: Option<Id>, expected: nat)
    requires Forest(t) && Placed(t, places)
    ensures cat !in t ==> MoveRefused(t, places, cat, target, before, expected, NotFound) && !MoveAllowed(t, places, cat, target, before, expected)
  {
  }

  /** The checks of a move let through exactly what is allowed. */
  lemma MoveChecksIff(t: Tree, places: Places, cat: Id, target: Option<Id>, before: Option<Id>, expected: nat,
                      source: seq<Id>, destination: seq<Id>)
    requires Forest(t) && cat in t && Placed(t, places)
    requires IsOrder(t, places, t[cat].parent, source) && IsOrder(t, places, target, destination)
    ensures var checks := MoveChecks(t, places, cat, target, before, expected, source, destination);
      && (checks.Ok? <==> MoveAllowed(t, places, cat, target, before, expected))
      && (checks.Err? ==> MoveRefused(t, places, cat, target, before, expected, checks.error) && checks.error != NumberLimitExceeded)
  {
    hide Forest, IsOrder, Requested, MayMove, Under;
    RequestedIff(t, places, cat, target, before, expected, source, destination);
    if MayMove(t, cat, target).Err? {
      MayMoveError(t, places, cat, target, before, expected);
    }
    if !t[cat].mirror && places[cat].version == expected && Requested(t, cat, target, before, source, destination).Ok? {
      MayMoveIff(t, places, cat, target, before, expected);
    }
  }

  lemma AskedLength(siblings: seq<Id>, cat: Id, before: Option<Id>, rows: seq<Id>, k: nat)
    requires AskedAt(siblings, cat, before, rows, k)
    ensures |rows| == |siblings| + if cat in siblings then 0 else 1
  {
  }

  /** What the checks of a move promise once they let it through. */
  lemma ChecksFit(t: Tree, places: Places, cat: Id, target: Option<Id>, before: Option<Id>, expected: nat,
                  source: seq<Id>, destination: seq<Id>)
    requires Forest(t) && cat in t && Placed(t, places)
    requires IsOrder(t, places, t[cat].parent, source) && IsOrder(t, places, target, destination)
    requires MoveChecks(t, places, cat, target, before, expected, source, destination).Ok?
    ensures var (level, dest) := MoveChecks(t, places, cat, target, before, expected, source, destination).value;
      && MayMove(t, cat, target) == Ok(level)
      && (target.Some? ==> target.value in t) && level == (if target.Some? then t[target.value].level + 1 else 1)
      && (exists k: nat :: AskedAt(NewSiblings(t, cat, target, source, destination), cat, before, dest, k))
      && Others(source, cat, Without(source, cat))
      && (MoveFits(t, cat, target, source, destination) <==>
            !((t[cat].parent != target && TooMany(Without(source, cat))) || TooMany(dest)))
  {
    hide Sorted, Under, AskedAt, Forest, Others;
    var (level, dest) := MoveChecks(t, places, cat, target, before, expected, source, destination).value;
    RequestedIsAsked(t, places, cat, target, before, source, destination);
    var siblings := NewSiblings(t, cat, target, source, destination);
    var k: nat :| AskedAt(siblings, cat, before, dest, k);
    AskedLength(siblings, cat, before, dest, k);
    WithoutIsOthers(source, cat);
    TooManyIff(Without(source, cat));
    TooManyIff(dest);
  }

  /** The rows that a move renumbers: those left behind, if it changes the parent, and the new siblings. */
  ghost predicate Ready(t: Tree, cat: Id, target: Option<Id>, level: int, sourceRows: seq<Id>, dest: seq<Id>) {
    && cat in t && cat !in sourceRows && (forall i | i in sourceRows :: Sibling(t, t[cat].parent, i))
    && (t[cat].parent != target ==> Family(Hung(t, cat, target, level), t[cat].parent, sourceRows))
    && Family(Hung(t, cat, target, level), target, dest) && cat in dest
  }

  lemma ChecksMakeReady(t: Tree, places: Places, cat: Id, target: Option<Id>, before: Option<Id>, expected: nat,
                        source: seq<Id>, destination: seq<Id>)
    requires Forest(t) && cat in t && Placed(t, places)
    requires IsOrder(t, places, t[cat].parent, source) && IsOrder(t, places, target, destination)
    requires MoveChecks(t, places, cat, target, before, expected, source, destination).Ok?
    ensures var (level, dest) := MoveChecks(t, places, cat, target, before, expected, source, destination).value;
      && Ready(t, cat, target, level, Without(source, cat), dest)
      && (forall k | 0 <= k < |dest| :: dest[k] in t)
      && (!t[cat].deleted ==> AreSiblings(Moved(t, cat, target, level), target, dest))
  {
    var (level, dest) := MoveChecks(t, places, cat, target, before, expected, source, destination).value;
    DestinationFamily(t, places, cat, target, level, before, source, destination);
    if t[cat].parent != target {
      SourceFamily(t, places, cat, target, level, source);
    }
    SiblingsStay(t, cat, target, level, dest);
  }

  /** Fresh random marks for the temporary codes of one move. */
  datatype Marks = Marks(move: string, source: string, destination: string)

  predicate FreshMarks(places: Places, m: Marks) {
    Fresh(places, m.move) && Fresh(places, m.source) && Fresh(places, m.destination)
    && !(m.source <= m.move) && !(m.destination <= m.move)
  }

  /** The moved row under its new parent, the rest of its subtree not yet. */
  function Hung(t: Tree, cat: Id, target: Option<Id>, level: int): Tree
    requires cat in t
  {
    t[cat := t[cat].(parent := target, level := level)]
  }

  function HungPlaces(places: Places, cat: Id, temporary: string): Places
    requires cat in places
  {
    places[cat := places[cat].(code := temporary, version := places[cat].version + 1)]
  }

  lemma HungUnique(t: Tree, places: Places, cat: Id, target: Option<Id>, level: int, temporary: string)
    requires CodesUnique(t, places) && cat in t && Fresh(places, temporary)
    ensures CodesUnique(Hung(t, cat, target, level), HungPlaces(places, cat, temporary))
  {
  }

  lemma HungStamped(places: Places, cat: Id, temporary: string)
    requires cat in places
    ensures AllStamped(places, HungPlaces(places, cat, temporary))
  {
  }

  lemma HungFresh(places: Places, cat: Id, m: Marks)
    requires cat in places && FreshMarks(places, m)
    ensures Fresh(HungPlaces(places, cat, m.move), m.source) && Fresh(HungPlaces(places, cat, m.move), m.destination)
  {
  }

  lemma SourceFamily(t: Tree, places: Places, cat: Id, target: Option<Id>, level: int, source: seq<Id>)
    requires cat in t && t[cat].parent != target && Placed(t, places) && IsOrder(t, places, t[cat].parent, source)
    ensures Family(Hung(t, cat, target, level), t[cat].parent, Without(source, cat))
  {
    var rows := Without(source, cat);
    forall k | 0 <= k < |rows| ensures rows[k] in t && rows[k] != cat && t[rows[k]].parent == t[cat].parent {
      assert rows[k] in rows;
    }
  }

  lemma OtherRowsAre(t: Tree, places: Places, cat: Id, target: Option<Id>, source: seq<Id>, destination: seq<Id>)
    requires cat in t && Placed(t, places) && IsOrder(t, places, t[cat].parent, source) && IsOrder(t, places, target, destination)
    ensures var rows := OtherRows(t, cat, target, source, destination);
      Distinct(rows) && forall i :: i in rows <==> Sibling(t, target, i) && i != cat
  {
  }

  lemma InsertedFamily(t: Tree, cat: Id, target: Option<Id>, level: int, rows: seq<Id>, k: nat)
    requires cat in t && k <= |rows| && Distinct(rows) && forall i :: i in rows <==> Sibling(t, target, i) && i != cat
    ensures var dest := InsertedAt(rows, k, cat);
      && Family(Hung(t, cat, target, level), target, dest) && cat in dest
      && (!t[cat].deleted ==> AreSiblings(Hung(t, cat, target, level), target, dest))
  {
    var dest := InsertedAt(rows, k, cat);
    forall j | 0 <= j < |dest| ensures dest[j] in t && (dest[j] == cat || Sibling(t, target, dest[j])) {
      assert dest[j] in dest;
    }
  }

  lemma DestinationFamily(t: Tree, places: Places, cat: Id, target: Option<Id>, level: int, before: Option<Id>, source: seq<Id>, destination: seq<Id>)
    requires cat in t && Placed(t, places) && IsOrder(t, places, t[cat].parent, source) && IsOrder(t, places, target, destination)
    requires Requested(t, cat, target, before, source, destination).Ok?
    ensures var dest := Requested(t, cat, target, before, source, destination).value;
      && Family(Hung(t, cat, target, level), target, dest) && cat in dest
      && (!t[cat].deleted ==> AreSiblings(Hung(t, cat, target, level), target, dest))
  {
    var rows := OtherRows(t, cat, target, source, destination);
    OtherRowsAre(t, places, cat, target, source, destination);
    var k: nat :| k <= |rows| && Requested(t, cat, target, before, source, destination).value == InsertedAt(rows, k, cat);
    InsertedFamily(t, cat, target, level, rows, k);
  }

  lemma NumberUnmarked(prefix: string, code: string)
    requires Marked(prefix) && IsNumber(code)
    ensures !(prefix <= code)
  {
    assert code[0] != prefix[0];
  }

  lemma FreshAfter(before: Places, now: Places, rows: seq<Id>, snapshot: Places, versioned: set<Id>, prefix: string)
    requires forall j | 0 <= j < |rows| :: rows[j] in before && rows[j] in snapshot
    requires Rewritten(before, now, rows, snapshot, versioned) && Fresh(before, prefix)
    ensures Fresh(now, prefix)
  {
    forall i | i in now ensures !(prefix <= now[i].code) {
      if Changed(snapshot, rows) && i in rows {
        var k :| 0 <= k < |rows| && rows[k] == i;
        NumberUnmarked(prefix, now[i].code);
      }
    }
  }

  /** What a move leaves among the new siblings. */
  predicate MoveOutcome(before: Places, now: Places, dest: seq<Id>, cat: Id, temporary: string)
    requires forall k | 0 <= k < |dest| :: dest[k] in before && dest[k] in now
  {
    if Changed(before, dest) then Numbered(now, dest)
    else forall k | 0 <= k < |dest| :: now[dest[k]].code == if dest[k] == cat then temporary else Number(k + 1, |dest|)
  }

  /**
   A move is listed where it was asked for exactly if some row among the new siblings had to
   change, or the last place was asked for; otherwise the temporary code stays.
   */
  lemma MoveListsIff(t: Tree, places: Places, before: Places, parent: Option<Id>, dest: seq<Id>, cat: Id, temporary: string)
    requires Placed(t, places) && AreSiblings(t, parent, dest) && cat in dest && Marked(temporary)
    requires forall k | 0 <= k < |dest| :: dest[k] in before && dest[k] in places
    requires MoveOutcome(before, places, dest, cat, temporary)
    ensures IsOrder(t, places, parent, dest) <==> Changed(before, dest) || dest[|dest| - 1] == cat
    ensures places[cat].code == temporary <==> !Changed(before, dest)
  {
    var k :| 0 <= k < |dest| && dest[k] == cat;
    if Changed(before, dest) {
      NumberedOrder(t, places, parent, dest, dest);
    } else {
      TemporaryOrder(t, places, parent, dest, k, dest);
    }
  }

  class Catalogue {
    var tree: Tree
    var places: Places

    predicate Inv()
      reads this
    {
      Sound(tree) && CodesUnique(tree, places)
    }

    constructor ()
      ensures Inv() && tree == map[] && places == map[]
    {
      tree, places := map[], map[];
    }

    /** One UPDATE of a row's place: the unique index refuses a code that a live sibling bears. */
    method UpdatePlace(id: Id, place: Place) returns (accepted: bool)
      requires id in tree && CodesUnique(tree, places)
      modifies this`places
      ensures accepted <==> CodesUnique(tree, old(places)[id := place])
      ensures places == if accepted then old(places)[id := place] else old(places)
    {
      CodeFreeIff(tree, places, id, place);
      accepted := CodeFree(tree, places, id, place.code);
      if accepted {
        places := places[id := place];
      }
    }

    method WriteTemporaries(rows: seq<Id>, prefix: string, ghost parent: Option<Id>)
      requires CodesUnique(tree, places) && Family(tree, parent, rows) && Fresh(places, prefix)
      modifies this`places
      ensures CodesUnique(tree, places) && TemporaryPhase(old(places), places, rows, prefix, |rows|)
    {
      for k := 0 to |rows|
        invariant CodesUnique(tree, places) && TemporaryPhase(old(places), places, rows, prefix, k)
      {
        TemporaryStep(old(places), places, rows, prefix, k);
        ghost var next := places[rows[k] := places[rows[k]].(code := Temporary(prefix, k + 1))];
        TemporaryUnique(tree, parent, rows, old(places), next, prefix, k + 1);
        var accepted := UpdatePlace(rows[k], places[rows[k]].(code := Temporary(prefix, k + 1)));
        assert accepted;
      }
    }

    method WriteNumbers(rows: seq<Id>, snapshot: Places, versioned: set<Id>, ghost before: Places, ghost prefix: string, ghost parent: Option<Id>)
      requires CodesUnique(tree, before) && Family(tree, parent, rows) && Marked(prefix) && CodesUnique(tree, places)
      requires forall j | 0 <= j < |rows| :: rows[j] in snapshot
      requires TemporaryPhase(before, places, rows, prefix, |rows|)
      modifies this`places
      ensures CodesUnique(tree, places) && NumberPhase(before, places, rows, prefix, snapshot, versioned, |rows|)
    {
      hide CodesUnique, NumberPhase, Family, TemporaryPhase;
      NumbersStart(before, places, rows, prefix, snapshot, versioned);
      for k := 0 to |rows|
        invariant CodesUnique(tree, places) && NumberPhase(before, places, rows, prefix, snapshot, versioned, k)
      {
        NumberNext(tree, parent, rows, before, places, prefix, snapshot, versioned, k);
        var bump := if Differs(snapshot, rows, k) && rows[k] !in versioned then 1 else 0;
        var next := Place(Number(k + 1, |rows|), (k + 1) * 10, places[rows[k]].version + bump);
        var accepted := UpdatePlace(rows[k], next);
        assert accepted;
      }
    }

    /** `_rewrite_category_positions`: `snapshot` holds the rows as they were read. */
    method RewritePositions(rows: seq<Id>, snapshot: Places, versioned: set<Id>, prefix: string, ghost parent: Option<Id>)
      returns (r: Result<bool, Error>)
      requires CodesUnique(tree, places) && Family(tree, parent, rows) && Fresh(places, prefix)
      requires forall j | 0 <= j < |rows| :: rows[j] in snapshot
      modifies this`places
      ensures CodesUnique(tree, places)
      ensures r.Err? <==> TooMany(rows)
      ensures r.Err? ==> r.error == NumberLimitExceeded && places == old(places)
      ensures r.Ok? ==> r.value == Changed(snapshot, rows) && Rewritten(old(places), places, rows, snapshot, versioned)
    {
      if TooMany(rows) {
        return Err(NumberLimitExceeded);
      }
      if !Changed(snapshot, rows) {
        return Ok(false);
      }
      WriteTemporaries(rows, prefix, parent);
      WriteNumbers(rows, snapshot, versioned, old(places), prefix, parent);
      return Ok(true);
    }

    // ---- move ----

    /** The first update of a move: the row itself, under a temporary code. */
    method HangRow(cat: Id, target: Option<Id>, level: int, m: Marks)
      requires CodesUnique(tree, places) && cat in tree && FreshMarks(places, m)
      modifies this
      ensures tree == Hung(old(tree), cat, target, level) && places == HungPlaces(old(places), cat, m.move)
      ensures CodesUnique(tree, places) && Fresh(places, m.source) && Fresh(places, m.destination)
    {
      HungUnique(tree, places, cat, target, level, m.move);
      HungFresh(places, cat, m);
      tree, places := Hung(tree, cat, target, level), HungPlaces(places, cat, m.move);
    }

    /** Close the gap among the siblings left behind. */
    method LeaveSiblings(parent: Option<Id>, rows: seq<Id>, snapshot: Places, m: Marks) returns (r: Result<bool, Error>)
      requires CodesUnique(tree, places) && Family(tree, parent, rows) && Fresh(places, m.source) && Fresh(places, m.destination)
      requires forall j | 0 <= j < |rows| :: rows[j] in snapshot && rows[j] in places && places[rows[j]] == snapshot[rows[j]]
      modifies this`places
      ensures CodesUnique(tree, places) && (r.Err? ==> r.error == NumberLimitExceeded) && (r.Err? <==> TooMany(rows))
      ensures Fresh(places, m.destination)
      ensures forall i | i in old(places) && i !in rows :: i in places && places[i] == old(places)[i]
      ensures r.Ok? ==> Numbered(places, rows)
      ensures r.Ok? && AllStamped(snapshot, old(places)) ==> AllStamped(snapshot, places)
    {
      r := RewritePositions(rows, snapshot, {}, m.source, parent);
      if r.Ok? {
        if AllStamped(snapshot, old(places)) {
          RewrittenAllStamped(old(places), places, rows, snapshot, {});
        }
        FreshAfter(old(places), places, rows, snapshot, {}, m.destination);
        RewrittenIsNumbered(old(places), places, rows, snapshot, {});
      }
    }

    /** Number the new siblings; the rows were read before anything was written. */
    method JoinSiblings(cat: Id, target: Option<Id>, dest: seq<Id>, snapshot: Places, m: Marks) returns (r: Result<bool, Error>)
      requires CodesUnique(tree, places) && Family(tree, target, dest) && Fresh(places, m.destination) && cat in dest
      requires forall k | 0 <= k < |dest| :: dest[k] in snapshot
      requires forall i | i in dest && i != cat :: places[i] == snapshot[i]
      requires places[cat].code == m.move
      modifies this`places
      ensures CodesUnique(tree, places) && (r.Err? ==> r.error == NumberLimitExceeded) && (r.Err? <==> TooMany(dest))
      ensures forall i | i in old(places) && i !in dest :: i in places && places[i] == old(places)[i]
      ensures r.Ok? ==> r.value == Changed(snapshot, dest) && MoveOutcome(snapshot, places, dest, cat, m.move)
      ensures r.Ok? && AllStamped(snapshot, old(places)) && old(places)[cat].version > snapshot[cat].version ==> AllStamped(snapshot, places)
      ensures r.Ok? ==> cat in places && places[cat].version >= old(places)[cat].version
    {
      r := RewritePositions(dest, snapshot, {cat}, m.destination, target);
      if r.Ok? {
        ghost var before := old(places);
        RewrittenVersion(before, places, dest, snapshot, {cat}, cat);
        if AllStamped(snapshot, before) && before[cat].version > snapshot[cat].version {
          RewrittenAllStamped(before, places, dest, snapshot, {cat});
        }
        assert Rewritten(before, places, dest, snapshot, {cat});
        if Changed(snapshot, dest) {
          RewrittenIsNumbered(before, places, dest, snapshot, {cat});
        } else {
          forall k | 0 <= k < |dest| ensures places[dest[k]].code == if dest[k] == cat then m.move else Number(k + 1, |dest|) {
            assert dest[k] in dest && !Differs(snapshot, dest, k);
          }
        }
      }
    }

    /** Shift some rows, one after the other. */
    method ShiftRows(work: set<Id>, delta: int)
      requires work <= tree.Keys == places.Keys
      modifies this
      ensures Shifted(old(tree), tree, work, delta) && SameCodes(old(places), places)
      ensures forall i | i in work && i in old(places) && i in places :: places[i].version > old(places)[i].version
    {
      hide Shifted;
      var rest := work;
      ghost var done: set<Id> := {};
      NothingShifted(tree, delta);
      while rest != {}
        invariant rest <= tree.Keys == places.Keys && done !! rest && done + rest == work
        invariant Shifted(old(tree), tree, done, delta) && SameCodes(old(places), places)
        invariant forall i | i in done && i in old(places) && i in places :: places[i].version > old(places)[i].version
        decreases rest
      {
        var i :| i in rest;
        ShiftedStep(old(tree), tree, done, i, delta);
        ShiftOne(i, delta);
        rest, done := rest - {i}, done + {i};
      }
      assert done == work;
    }

    method ShiftOne(i: Id, delta: int)
      requires i in tree && i in places
      modifies this
      ensures tree == old(tree)[i := old(tree)[i].(level := old(tree)[i].level + delta)]
      ensures SameCodes(old(places), places) && i in places && places[i].version > old(places)[i].version
    {
      tree := tree[i := tree[i].(level := tree[i].level + delta)];
      places := places[i := places[i].(version := places[i].version + 1)];
    }

    /** Let the descendants, as found before the move, follow the moved category. */
    method ShiftLevels(cat: Id, target: Option<Id>, level: int, descendants: set<Id>, before: Tree)
      requires Forest(before) && cat in before && tree == Hung(before, cat, target, level)
      requires places.Keys == tree.Keys && descendants == Subtree(before, cat)
      modifies this
      ensures tree == Moved(before, cat, target, level)
      ensures SameCodes(old(places), places)
      ensures forall i | i in before && i != cat && i in old(places) && i in places && tree[i] != before[i] ::
                places[i].version > old(places)[i].version
    {
      var delta := level - before[cat].level;
      if delta != 0 {
        ShiftRows(descendants - {cat}, delta);
      }
      FollowingEnds(before, cat, target, level, tree);
    }

    /**
     `move_category`; the listings are those of the old and the new siblings.  The whole subtree
     shifts by one constant, the siblings left behind and the new ones are renumbered, every row
     that changed has a new version, and the result is listed where asked for exactly as
     MoveListsIff says.
     */
    method MoveCategory(cat: Id, target: Option<Id>, before: Option<Id>, expected: nat, source: seq<Id>, destination: seq<Id>, m: Marks)
      returns (r: Result<seq<Id>, Error>)
      requires Inv() && FreshMarks(places, m)
      requires cat in tree ==> IsOrder(tree, places, tree[cat].parent, source)
      requires IsOrder(tree, places, target, destination)
      modifies this
      ensures Inv() && (r.Err? ==> tree == old(tree) && places == old(places))
      ensures r.Ok? <==> MoveAllowed(old(tree), old(places), cat, target, before, expected)
                         && MoveFits(old(tree), cat, target, source, destination)
      ensures r.Err? && r.error != NumberLimitExceeded ==> MoveRefused(old(tree), old(places), cat, target, before, expected, r.error)
      ensures r.Err? && r.error == NumberLimitExceeded ==> cat in old(tree) && !MoveFits(old(tree), cat, target, source, destination)
      ensures r.Ok? ==> exists k: nat :: AskedAt(NewSiblings(old(tree), cat, target, source, destination), cat, before, r.value, k)
      ensures r.Ok? && target.None? ==> tree == Moved(old(tree), cat, target, 1)
      ensures r.Ok? && target.Some? ==> tree == Moved(old(tree), cat, target, old(tree)[target.value].level + 1)
      ensures r.Ok? ==> (forall k | 0 <= k < |r.value| :: r.value[k] in old(places) && r.value[k] in places)
                        && MoveOutcome(old(places), places, r.value, cat, m.move)
      ensures r.Ok? && old(tree)[cat].parent != target ==> exists left: seq<Id> :: Others(source, cat, left) && Numbered(places, left)
      ensures r.Ok? && !tree[cat].deleted ==> AreSiblings(tree, target, r.value)
      ensures RowsStamped(old(tree), old(places), tree, places)
    {
      hide CodesUnique, FreshMarks, Sorted, Ready, MoveOutcome, Numbered, MoveChecks, MoveAllowed, MoveRefused, AskedAt, Others, MoveFits, NewSiblings,
           TooMany, AllStamped, RowsStamped, Sound, Forest, AreSiblings, Sibling, IsOrder, Under, MayMove;
      SoundIsForest(tree);
      AsItWas(tree, places);
      UniqueIsPlaced(tree, places);
      UnknownIsRefused(tree, places, cat, target, before, expected);
      if cat !in tree {
        return Err(NotFound);
      }
      MoveChecksIff(tree, places, cat, target, before, expected, source, destination);
      var checks := MoveChecks(tree, places, cat, target, before, expected, source, destination);
      if checks.Err? {
        return Err(checks.error);
      }
      var (level, dest) := checks.value;
      ChecksMakeReady(tree, places, cat, target, before, expected, source, destination);
      ChecksFit(tree, places, cat, target, before, expected, source, destination);
      var moved := MoveTo(cat, target, level, Without(source, cat), dest, m);
      if moved.Err? {
        return Err(moved.error);
      }
      UniqueIsPlaced(tree, places);
      return Ok(dest);
    }

    /** The updates of a move, rolled back on an error. */
    method MoveTo(cat: Id, target: Option<Id>, level: int, sourceRows: seq<Id>, dest: seq<Id>, m: Marks) returns (r: Result<bool, Error>)
      requires Inv() && cat in tree && FreshMarks(places, m) && MayMove(tree, cat, target) == Ok(level)
      requires Ready(tree, cat, target, level, sourceRows, dest)
      modifies this
      ensures Inv() && (r.Err? ==> tree == old(tree) && places == old(places))
      ensures r.Err? <==> (old(tree)[cat].parent != target && TooMany(sourceRows)) || TooMany(dest)
      ensures r.Err? ==> r.error == NumberLimitExceeded
      ensures r.Ok? ==> tree == Moved(old(tree), cat, target, level) && MoveOutcome(old(places), places, dest, cat, m.move)
      ensures r.Ok? && old(tree)[cat].parent != target ==> Numbered(places, sourceRows)
      ensures RowsStamped(old(tree), old(places), tree, places)
    {
      var oldTree, oldPlaces := tree, places;
      var descendants := Subtree(tree, cat);
      r := Renumber(cat, target, level, sourceRows, dest, m);
      if r.Err? {
        tree, places := oldTree, oldPlaces;
        return;
      }
      ghost var between := places;
      HungShape(oldTree, cat, target, level, places);
      ShiftLevels(cat, target, level, descendants, oldTree);
      MovedKeeps(oldTree, cat, target);
      SameCodesUnique(tree, between, places);
      SameOutcome(oldPlaces, between, places, dest, cat, m.move);
      StampsStay(oldTree, oldPlaces, between, tree, places, cat);
    }

    /** All updates of a move but the descendants' levels. */
    method Renumber(cat: Id, target: Option<Id>, level: int, sourceRows: seq<Id>, dest: seq<Id>, m: Marks) returns (r: Result<bool, Error>)
      requires Inv() && cat in tree && FreshMarks(places, m)
      requires Ready(tree, cat, target, level, sourceRows, dest)
      modifies this
      ensures tree == Hung(old(tree), cat, target, level) && CodesUnique(tree, places)
      ensures r.Err? ==> r.error == NumberLimitExceeded
      ensures r.Err? <==> (old(tree)[cat].parent != target && TooMany(sourceRows)) || TooMany(dest)
      ensures r.Ok? ==> r.value == Changed(old(places), dest) && MoveOutcome(old(places), places, dest, cat, m.move)
      ensures r.Ok? && old(tree)[cat].parent != target ==> Numbered(places, sourceRows)
      ensures r.Ok? ==> AllStamped(old(places), places) && cat in places && places[cat].version > old(places)[cat].version
    {
      hide AllStamped, CodesUnique, Fresh, Numbered, TooMany, MoveOutcome, Changed, Sound, Stamped;
      UniqueIsPlaced(tree, places);
      var parent, snapshot := tree[cat].parent, places;
      HangRow(cat, target, level, m);
      HungStamped(snapshot, cat, m.move);
      if parent != target {
        r := LeaveSiblings(parent, sourceRows, snapshot, m);
        if r.Err? {
          return;
        }
      }
      UniqueIsPlaced(tree, places);
      ghost var left := places;
      Apart(old(tree), cat, target, level, sourceRows, dest);
      r := JoinSiblings(cat, target, dest, snapshot, m);
      if parent != target && r.Ok? {
        NumberedKept(left, places, sourceRows, dest);
      }
    }

    // ---- create ----

    /** Insert one row; its code must be free among its siblings. */
    method InsertRow(id: Id, parent: Option<Id>, key: string, name: Name, code: string, sortOrder: nat)
      requires Inv() && id !in tree && Created(tree, id, parent, key, name).Ok?
      requires forall i | Sibling(tree, parent, i) :: places[i].code != code
      modifies this
      ensures Inv() && tree == Created(old(tree), id, parent, key, name).value
      ensures places == old(places)[id := Place(code, sortOrder, 1)]
    {
      hide CodesUnique, Sound;
      var next, place := Created(tree, id, parent, key, name).value, Place(code, sortOrder, 1);
      assert Sound(next) by {
        CreatedKeeps(tree, id, parent, key, name);
      }
      assert CodesUnique(next, places[id := place]) by {
        InsertUnique(tree, places, next, id, parent, place);
      }
      tree, places := next, places[id := place];
    }

    /** `create_category` under a code of the caller's choice. */
    method CreateWithCode(id: Id, parent: Option<Id>, key: string, name: Name, code: string, sortOrder: nat) returns (r: Result<(), Error>)
      requires Inv() && id !in tree
      modifies this
      ensures Inv() && (r.Err? ==> tree == old(tree) && places == old(places))
      ensures r.Ok? <==> CreateAllowed(old(tree), parent, name)
                         && forall i | i in old(tree) && !old(tree)[i].deleted && old(tree)[i].parent == parent :: old(places)[i].code != code
      ensures r.Err? && r.error != CodeConflict ==> CreateRefused(old(tree), parent, name, r.error)
      ensures r.Err? && r.error == CodeConflict ==>
                exists i | i in old(tree) && !old(tree)[i].deleted && old(tree)[i].parent == parent :: old(places)[i].code == code
      ensures r.Ok? && parent.None? ==> tree == old(tree)[id := Node(None, 1, key, name, true, false, true, true, false)]
      ensures r.Ok? && parent.Some? ==>
                tree == old(tree)[id := Node(parent, old(tree)[parent.value].level + 1, key, name, true, false, true, false, false)]
      ensures r.Ok? ==> places == old(places)[id := Place(code, sortOrder, 1)]
    {
      CreatedIff(tree, id, parent, key, name);
      var created := Created(tree, id, parent, key, name);
      if created.Err? {
        return Err(created.error);
      }
      if CodeTaken(tree, places, parent, code) {
        return Err(CodeConflict);
      }
      InsertRow(id, parent, key, name, code, sortOrder);
      return Ok(());
    }

    /** `create_category` at a position: the siblings from there on make room. */
    method CreateAt(id: Id, parent: Option<Id>, key: string, name: Name, position: nat, confirmed: bool, siblings: seq<Id>, m: Marks)
      returns (r: Result<(), Error>)
      requires Inv() && id !in tree && FreshMarks(places, m) && IsOrder(tree, places, parent, siblings)
      modifies this
      ensures Inv() && (r.Err? ==> tree == old(tree) && places == old(places))
      ensures r.Ok? <==> CreateAtAllowed(old(tree), old(places), parent, name, position, confirmed, siblings) && |siblings| < 99_999
      ensures r.Err? ==> if r.error == NumberLimitExceeded then |siblings| >= 99_999
                         else CreateAtRefused(old(tree), parent, name, position, confirmed, siblings, r.error)
      ensures r.Ok? && parent.None? ==> tree == old(tree)[id := Node(None, 1, key, name, true, false, true, true, false)]
      ensures r.Ok? && parent.Some? ==>
                tree == old(tree)[id := Node(parent, old(tree)[parent.value].level + 1, key, name, true, false, true, false, false)]
      ensures r.Ok? ==> exists rows: seq<Id> ::
                ListedAs(tree, places, parent, rows) && Numbered(places, rows) && StandsAt(rows, position - 1, id, siblings)
      ensures r.Ok? && !confirmed ==> forall i | i in old(places) :: i in places && places[i].code == old(places)[i].code
      ensures RowsStamped(old(tree), old(places), tree, places)
    {
      hide CodesUnique, Sound, FreshMarks, IsOrder, AreSiblings, CreateAtAllowed, CreateAtRefused, CreateAllowed, CreateRefused,
           CreateAtChecks, TooMany, ListedAs, Numbered, StandsAt, AllStamped, RowsStamped, Created, KeepNumbers,
           InsertedAt, Fresh, Sorted, Sibling;
      UniqueIsPlaced(tree, places);
      AsItWas(tree, places);
      CreateAtIff(tree, places, id, parent, key, name, position, confirmed, siblings);
      var checks := CreateAtChecks(tree, places, parent, name, position, confirmed, siblings);
      if checks.Err? {
        return Err(checks.error);
      }
      var rows := InsertedAt(siblings, position - 1, id);
      MakesRoom(tree, places, id, parent, key, name, siblings, position - 1);
      var inserted := Insert(id, parent, key, name, rows, (|siblings| + 1) * 10, m);
      if inserted.Err? {
        return Err(inserted.error);
      }
      if !confirmed {
        SameNumbers(old(places), places, id, siblings, rows);
      }
      return Ok(());
    }

    /** Insert a row under a temporary code and number the siblings, itself among them; nothing stays on an error. */
    method Insert(id: Id, parent: Option<Id>, key: string, name: Name, rows: seq<Id>, sortOrder: nat, m: Marks) returns (r: Result<bool, Error>)
      requires Inv() && id !in tree && FreshMarks(places, m) && Created(tree, id, parent, key, name).Ok?
      requires AreSiblings(Created(tree, id, parent, key, name).value, parent, rows)
      modifies this
      ensures Inv() && (r.Err? ==> tree == old(tree) && places == old(places))
      ensures r.Err? ==> r.error == NumberLimitExceeded
      ensures r.Err? <==> TooMany(rows)
      ensures r.Ok? ==> tree == Created(old(tree), id, parent, key, name).value
      ensures r.Ok? ==> ListedAs(tree, places, parent, rows) && Numbered(places, rows)
      ensures RowsStamped(old(tree), old(places), tree, places)
      ensures forall i | i in old(places) && i !in rows :: i in places && places[i] == old(places)[i]
    {
      hide CodesUnique, Sound, AreSiblings, ListedAs, Numbered, TooMany, FreshMarks, Fresh, Stamped;
      AsItWas(tree, places);
      var oldTree, oldPlaces := tree, places;
      UniqueIsPlaced(tree, places);
      FreshInserted(places, id, m, Place(m.move, sortOrder, 1));
      FreshIsFree(tree, places, parent, m);
      InsertRow(id, parent, key, name, m.move, sortOrder);
      r := RenumberSiblings(parent, rows, {id}, m.destination);
      if r.Err? {
        tree, places := oldTree, oldPlaces;
      } else {
        InsertedStamps(oldTree, oldPlaces, tree, id, Place(m.move, sortOrder, 1), places);
      }
    }

    /** Number all live siblings in the order given; the rows are as they are now. */
    method RenumberSiblings(parent: Option<Id>, rows: seq<Id>, versioned: set<Id>, prefix: string) returns (r: Result<bool, Error>)
      requires Inv() && AreSiblings(tree, parent, rows) && Fresh(places, prefix)
      modifies this`places
      ensures Inv() && (r.Err? ==> r.error == NumberLimitExceeded) && (r.Err? <==> TooMany(rows))
      ensures r.Ok? ==> Numbered(places, rows) && ListedAs(tree, places, parent, rows)
      ensures r.Ok? ==> forall i | i in old(places) && i !in versioned :: i in places && Stamped(old(places)[i], places[i])
      ensures forall i | i in old(places) && i !in rows :: i in places && places[i] == old(places)[i]
    {
      SiblingsAreFamily(tree, parent, rows);
      r := RewritePositions(rows, places, versioned, prefix, parent);
      if r.Ok? {
        RewrittenStampsOthers(old(places), places, rows, versioned);
        RewrittenIsNumbered(old(places), places, rows, old(places), versioned);
        NumberedListing(tree, places, parent, rows);
      }
    }

    // ---- renumber ----

    /** `update_category_number`: put a category at another position among its siblings. */
    method UpdateNumber(cat: Id, position: nat, confirmed: bool, expected: nat, siblings: seq<Id>, prefix: string) returns (r: Result<(), Error>)
      requires Inv() && Fresh(places, prefix)
      requires cat in tree ==> IsOrder(tree, places, tree[cat].parent, siblings)
      modifies this`places
      ensures Inv() && (r.Err? ==> places == old(places))
      ensures r.Ok? <==> && cat in tree && old(places)[cat].version == expected && 1 <= position <= |siblings| && cat in siblings
                         && (siblings[position - 1] == cat || (confirmed && |siblings| <= 99_999))
      ensures r.Err? ==> NumberRefused(tree, old(places), cat, position, confirmed, expected, siblings, r.error)
      ensures r.Ok? && siblings[position - 1] == cat ==> places == old(places)
      ensures r.Ok? && siblings[position - 1] != cat ==>
                exists rows: seq<Id> :: ListedAs(tree, places, tree[cat].parent, rows) && PutAt(siblings, cat, position - 1, rows)
      ensures RowsStamped(tree, old(places), tree, places)
    {
      hide CodesUnique, Sound, Fresh, Sorted, TooMany, ListedAs, Numbered, PutAt, AllStamped, RowsStamped, NumberRefused, Others,
           InsertedAt, Without, AreSiblings, Stamped, Sibling, Distinct;
      AsItWas(tree, places);
      UniqueIsPlaced(tree, places);
      NumberRefusals(tree, places, cat, position, confirmed, expected, siblings);
      if cat !in tree {
        return Err(NotFound);
      }
      if places[cat].version != expected {
        return Err(VersionConflict);
      }
      if position < 1 || position > |siblings| {
        return Err(PositionInvalid);
      }
      if cat !in siblings {
        return Err(Uncaught);
      }
      PlaceOfIff(tree, tree[cat].parent, siblings, cat, position - 1);
      if PlaceOf(siblings, cat) == position - 1 {
        return Ok(());
      }
      if !confirmed {
        return Err(ConfirmationRequired);
      }
      OneElsewhere(tree, tree[cat].parent, siblings, cat, position - 1);
      var saved := places;
      var rows := InsertedAt(Without(siblings, cat), position - 1, cat);
      var renumbered := RenumberSiblings(tree[cat].parent, rows, {}, prefix);
      if renumbered.Err? {
        places := saved;
        return Err(renumbered.error);
      }
      StampedRows(tree, old(places), places);
      return Ok(());
    }

    // ---- delete ----

    /** `delete_category`; `blocked` says that content, uploads, requests or a moving item hold the subtree. */
    method DeleteCategory(cat: Id, confirmed: bool, expected: nat, blocked: bool, siblings: seq<Id>, prefix: string) returns (r: Result<(), Error>)
      requires Inv() && Fresh(places, prefix)
      requires cat in tree ==> IsOrder(tree, places, tree[cat].parent, siblings)
      modifies this
      ensures Inv() && (r.Err? ==> tree == old(tree) && places == old(places))
      ensures r.Ok? <==> confirmed && !blocked && cat in old(tree) && !old(tree)[cat].deleted && old(places)[cat].version == expected
                         && |siblings| <= 100_000
      ensures r.Err? ==> DeleteRefused(old(tree), old(places), cat, confirmed, expected, blocked, siblings, r.error)
      ensures r.Ok? ==> tree.Keys == old(tree).Keys && forall i | i in tree :: DeletedRow(old(tree), cat, i, tree[i])
      ensures r.Ok? ==> exists rows: seq<Id> ::
                ListedAs(tree, places, tree[cat].parent, rows) && Numbered(places, rows) && Others(siblings, cat, rows)
      ensures RowsStamped(old(tree), old(places), tree, places)
    {
      hide CodesUnique, Sound, Fresh, IsOrder, AreSiblings, TooMany, ListedAs, Numbered, AllStamped, RowsStamped, DeleteRefused, Others, DeletedRow;
      AsItWas(tree, places);
      UniqueIsPlaced(tree, places);
      DeleteRefusals(tree, places, cat, confirmed, expected, blocked, siblings);
      if !confirmed {
        return Err(ConfirmationRequired);
      }
      if cat !in tree || tree[cat].deleted {
        return Err(NotFound);
      }
      if places[cat].version != expected {
        return Err(VersionConflict);
      }
      if blocked {
        return Err(DeleteBlocked);
      }
      var oldTree, oldPlaces := tree, places;
      RemainingSiblings(oldTree, oldPlaces, cat, siblings);
      MarkDeleted(cat);
      ghost var between := places;
      SameCodesFresh(oldPlaces, places, prefix);
      var renumbered := RenumberSiblings(oldTree[cat].parent, Without(siblings, cat), {}, prefix);
      if renumbered.Err? {
        tree, places := oldTree, oldPlaces;
        return Err(renumbered.error);
      }
      DeletedStamps(oldTree, oldPlaces, between, tree, places);
      return Ok(());
    }

    /** The live subtree is marked deleted in one statement. */
    method MarkDeleted(cat: Id)
      requires Inv() && cat in tree
      modifies this
      ensures Inv() && tree == Deleted(old(tree), cat) && SameCodes(old(places), places)
      ensures forall i | i in tree && i in places && i in old(places) && tree[i] != old(tree)[i] :: places[i].version > old(places)[i].version
    {
      hide CodesUnique, Sound, Deleted;
      SoundIsForest(tree);
      var gone := set i | i in Subtree(tree, cat) && !tree[i].deleted;
      MarkedDeleted(tree, places, cat, gone);
      tree, places := Deleted(tree, cat), Bumped(places, gone);
    }
  }

  function Bumped(places: Places, rows: set<Id>): (r: Places)
    ensures SameCodes(places, r)
  {
    map i | i in places :: if i in rows then places[i].(version := places[i].version + 1) else places[i]
  }

  /** The checks of a creation at a position, in their order. */
  function CreateAtChecks(t: Tree, places: Places, parent: Option<Id>, name: Name, position: nat, confirmed: bool, siblings: seq<Id>)
    : Result<(), Error>
    requires forall k | 0 <= k < |siblings| :: siblings[k] in places
  {
    var level :- ChildLevel(t, parent);
    if position < 1 || position > |siblings| + 1 then Err(PositionInvalid)
    else if NeedsShift(places, siblings, position) && !confirmed then Err(ConfirmationRequired)
    else if NameTaken(t, parent, name, None) then Err(NameConflict)
    else Ok(())
  }

  /** Without a confirmation a new category only goes behind siblings whose numbers stay as they are. */
  ghost predicate CreateAtAllowed(t: Tree, places: Places, parent: Option<Id>, name: Name, position: nat, confirmed: bool, siblings: seq<Id>)
    requires forall k | 0 <= k < |siblings| :: siblings[k] in places
  {
    && CreateAllowed(t, parent, name) && 1 <= position <= |siblings| + 1
    && (confirmed || (position == |siblings| + 1 && KeepNumbers(places, siblings, |siblings| + 1)))
  }

  ghost predicate KeepNumbers(places: Places, siblings: seq<Id>, count: nat)
    requires forall k | 0 <= k < |siblings| :: siblings[k] in places
  {
    forall k | 0 <= k < |siblings| :: places[siblings[k]].code == Number(k + 1, count)
  }

  ghost predicate CreateAtRefused(t: Tree, parent: Option<Id>, name: Name, position: nat, confirmed: bool, siblings: seq<Id>, error: Error) {
    match error
    case PositionInvalid => position < 1 || position > |siblings| + 1
    case ConfirmationRequired => !confirmed
    case _ => CreateRefused(t, parent, name, error)
  }

  lemma CreateAtIff(t: Tree, places: Places, id: Id, parent: Option<Id>, key: string, name: Name, position: nat, confirmed: bool, siblings: seq<Id>)
    requires Sound(t) && id !in t && CodesUnique(t, places) && IsOrder(t, places, parent, siblings)
    ensures forall k | 0 <= k < |siblings| :: siblings[k] in places
    ensures var checks := CreateAtChecks(t, places, parent, name, position, confirmed, siblings);
      && (checks.Ok? <==> CreateAtAllowed(t, places, parent, name, position, confirmed, siblings))
      && (checks.Err? ==> CreateAtRefused(t, parent, name, position, confirmed, siblings, checks.error) && checks.error != NumberLimitExceeded)
      && (checks.Ok? ==> 1 <= position <= |siblings| + 1 && Created(t, id, parent, key, name).Ok?)
      && (checks.Ok? && !confirmed ==> position == |siblings| + 1 && KeepNumbers(places, siblings, |siblings| + 1))
  {
    hide Forest, CodesUnique, Sorted, Number, AreSiblings, CreateAllowed, CreateRefused, LiveAbove;
    UniqueIsPlaced(t, places);
    CreatedIff(t, id, parent, key, name);
    forall k | 0 <= k < |siblings| ensures siblings[k] in places {
      assert siblings[k] in t;
    }
  }

  /** What a creation at a position finds before it writes. */
  lemma MakesRoom(t: Tree, places: Places, id: Id, parent: Option<Id>, key: string, name: Name, siblings: seq<Id>, k: nat)
    requires Sound(t) && id !in t && CodesUnique(t, places) && IsOrder(t, places, parent, siblings)
    requires Created(t, id, parent, key, name).Ok? && k <= |siblings|
    ensures var next := Created(t, id, parent, key, name).value; var rows := InsertedAt(siblings, k, id);
      && AreSiblings(next, parent, rows) && StandsAt(rows, k, id, siblings)
      && (TooMany(rows) <==> |siblings| >= 99_999)
      && (parent.None? ==> next == t[id := Node(None, 1, key, name, true, false, true, true, false)])
      && (parent.Some? ==>
           parent.value in t && next == t[id := Node(parent, t[parent.value].level + 1, key, name, true, false, true, false, false)])
  {
    hide CodesUnique, Sorted, CreateAllowed, CreateRefused, LiveAbove, Forest, InsertedAt, Created, AreSiblings, TooMany;
    CreatedIff(t, id, parent, key, name);
    InsertFamily(t, Created(t, id, parent, key, name).value, id, parent, siblings, k);
    TooManyIff(InsertedAt(siblings, k, id));
    AroundInserted(siblings, k, id);
  }

  /** Siblings that bear the numbers of the larger family keep them. */
  lemma SameNumbers(before: Places, now: Places, id: Id, siblings: seq<Id>, rows: seq<Id>)
    requires forall k | 0 <= k < |siblings| :: siblings[k] in before
    requires KeepNumbers(before, siblings, |siblings| + 1) && rows == InsertedAt(siblings, |siblings|, id) && Numbered(now, rows)
    requires id !in before && forall i | i in before && i !in rows :: i in now && now[i] == before[i]
    ensures forall i | i in before :: i in now && now[i].code == before[i].code
  {
    forall i | i in before && i in rows ensures i in now && now[i].code == before[i].code {
      var k :| 0 <= k < |rows| && rows[k] == i;
      assert rows[k] == siblings[k];
    }
  }

  /** The category stands at the given position and the others are the siblings in their order. */
  ghost predicate PutAt(siblings: seq<Id>, cat: Id, k: int, rows: seq<Id>) {
    0 <= k < |rows| && rows[k] == cat && Others(siblings, cat, rows[..k] + rows[k + 1..])
  }

  /** What each error of a renumbering says. */
  ghost predicate NumberRefused(t: Tree, places: Places, cat: Id, position: nat, confirmed: bool, expected: nat, siblings: seq<Id>, error: Error) {
    match error
    case NotFound => cat !in t
    case VersionConflict => cat in places && places[cat].version != expected
    case PositionInvalid => position < 1 || position > |siblings|
    case Uncaught => cat !in siblings
    case ConfirmationRequired => !confirmed
    case NumberLimitExceeded => |siblings| > 99_999
    case _ => false
  }

  lemma NumberRefusals(t: Tree, places: Places, cat: Id, position: nat, confirmed: bool, expected: nat, siblings: seq<Id>)
    ensures cat !in t ==> NumberRefused(t, places, cat, position, confirmed, expected, siblings, NotFound)
    ensures cat in places && places[cat].version != expected ==> NumberRefused(t, places, cat, position, confirmed, expected, siblings, VersionConflict)
    ensures position < 1 || position > |siblings| ==> NumberRefused(t, places, cat, position, confirmed, expected, siblings, PositionInvalid)
    ensures cat !in siblings ==> NumberRefused(t, places, cat, position, confirmed, expected, siblings, Uncaught)
    ensures !confirmed ==> NumberRefused(t, places, cat, position, confirmed, expected, siblings, ConfirmationRequired)
    ensures |siblings| > 99_999 ==> NumberRefused(t, places, cat, position, confirmed, expected, siblings, NumberLimitExceeded)
  {
  }

  lemma PlaceOfIff(t: Tree, parent: Option<Id>, siblings: seq<Id>, cat: Id, k: nat)
    requires AreSiblings(t, parent, siblings) && cat in siblings && k < |siblings|
    ensures PlaceOf(siblings, cat) == k <==> siblings[k] == cat
  {
  }

  /** The siblings with one of them at another position. */
  lemma OneElsewhere(t: Tree, parent: Option<Id>, siblings: seq<Id>, cat: Id, k: nat)
    requires AreSiblings(t, parent, siblings) && cat in siblings && k < |siblings|
    ensures k <= |Without(siblings, cat)|
    ensures var rows := InsertedAt(Without(siblings, cat), k, cat);
      AreSiblings(t, parent, rows) && PutAt(siblings, cat, k, rows) && (TooMany(rows) <==> |siblings| > 99_999)
  {
    hide Others, InsertedAt, Without, TooMany;
    WithoutIsOthers(siblings, cat);
    AroundInserted(Without(siblings, cat), k, cat);
    TooManyIff(InsertedAt(Without(siblings, cat), k, cat));
  }

  lemma StampedRows(t: Tree, a: Places, b: Places)
    requires forall i | i in a && i !in {} :: i in b && Stamped(a[i], b[i])
    ensures RowsStamped(t, a, t, b)
  {
    forall i | i in a ensures i in b && Stamped(a[i], b[i]) {
      assert i !in {};
    }
  }

  predicate CodeTaken(t: Tree, places: Places, parent: Option<Id>, code: string)
    requires Placed(t, places)
  {
    exists i | i in t :: Sibling(t, parent, i) && places[i].code == code
  }

  predicate NeedsShift(places: Places, siblings: seq<Id>, position: nat)
    requires forall k | 0 <= k < |siblings| :: siblings[k] in places
  {
    position <= |siblings| || exists k | 0 <= k < |siblings| :: places[siblings[k]].code != Number(k + 1, |siblings| + 1)
  }

  /** Listing the siblings gives exactly these rows in this order. */
  ghost predicate ListedAs(t: Tree, places: Places, parent: Option<Id>, rows: seq<Id>)
  {
    Placed(t, places) && forall order: seq<Id> :: IsOrder(t, places, parent, order) <==> order == rows
  }

  lemma NumberedListing(t: Tree, places: Places, parent: Option<Id>, rows: seq<Id>)
    requires Placed(t, places) && AreSiblings(t, parent, rows) && Numbered(places, rows)
    ensures ListedAs(t, places, parent, rows)
  {
    forall order: seq<Id> ensures IsOrder(t, places, parent, order) <==> order == rows {
      NumberedOrder(t, places, parent, rows, order);
    }
  }

  lemma SiblingsAreFamily(t: Tree, parent: Option<Id>, rows: seq<Id>)
    requires AreSiblings(t, parent, rows)
    ensures Family(t, parent, rows)
  {
    forall k | 0 <= k < |rows| ensures Sibling(t, parent, rows[k]) {
      assert rows[k] in rows;
    }
  }

  /** The temporary code of a new row is free, and later marks differ from it. */
  lemma FreshInserted(places: Places, id: Id, m: Marks, place: Place)
    requires FreshMarks(places, m) && place.code == m.move
    ensures forall i | i in places :: places[i].code != m.move
    ensures Fresh(places[id := place], m.destination)
  {
  }

  lemma FreshIsFree(t: Tree, places: Places, parent: Option<Id>, m: Marks)
    requires CodesUnique(t, places) && FreshMarks(places, m)
    ensures forall i | Sibling(t, parent, i) :: i in places && places[i].code != m.move
  {
    FreshInserted(places, Id(""), m, Place(m.move, 0, 1));
  }

  lemma InsertUnique(t: Tree, places: Places, next: Tree, id: Id, parent: Option<Id>, place: Place)
    requires CodesUnique(t, places) && id !in t && next.Keys == t.Keys + {id} && next[id].parent == parent
    requires forall i | i in t :: next[i] == t[i]
    requires forall i | Sibling(t, parent, i) :: places[i].code != place.code
    ensures CodesUnique(next, places[id := place])
  {
    forall i | i in t && !t[i].deleted && t[i].parent == parent ensures places[i].code != place.code {
      assert Sibling(t, parent, i);
    }
  }

  lemma InsertedStamps(t: Tree, a: Places, u: Tree, id: Id, place: Place, b: Places)
    requires id !in t && t.Keys == a.Keys && forall i | i in t :: i in u && u[i] == t[i]
    requires forall i | i in a[id := place] && i !in {id} :: i in b && Stamped(a[id := place][i], b[i])
    ensures RowsStamped(t, a, u, b)
  {
    forall i | i in a ensures i in b && Stamped(a[i], b[i]) {
      assert a[id := place][i] == a[i];
    }
  }

  lemma InsertFamily(t: Tree, next: Tree, id: Id, parent: Option<Id>, siblings: seq<Id>, k: nat)
    requires AreSiblings(t, parent, siblings) && id !in t && k <= |siblings|
    requires next.Keys == t.Keys + {id} && Sibling(next, parent, id) && forall i | i in t :: next[i] == t[i]
    ensures AreSiblings(next, parent, InsertedAt(siblings, k, id))
  {
    forall i ensures Sibling(next, parent, i) <==> i == id || Sibling(t, parent, i) {
    }
  }

  lemma MarkedDeleted(t: Tree, places: Places, cat: Id, gone: set<Id>)
    requires Sound(t) && CodesUnique(t, places) && cat in t && gone == set i | i in Subtree(t, cat) && !t[i].deleted
    ensures Sound(Deleted(t, cat)) && CodesUnique(Deleted(t, cat), Bumped(places, gone))
    ensures forall i | i in Deleted(t, cat) && i in t && i in places && i in Bumped(places, gone) && Deleted(t, cat)[i] != t[i] ::
              Bumped(places, gone)[i].version > places[i].version
  {
    DeletedKeeps(t, cat);
    ShapeUnique(t, Deleted(t, cat), places);
    SameCodesUnique(Deleted(t, cat), places, Bumped(places, gone));
  }

  /** What becomes of a row when a category is deleted. */
  ghost predicate DeletedRow(t: Tree, cat: Id, i: Id, now: Node)
    requires Forest(t)
  {
    i in t && if Under(t, i, cat) && !t[i].deleted
      then now == t[i].(active := false, deleted := true, chat := false, selectable := false)
      else now == t[i]
  }

  /** What each error of a deletion says. */
  ghost predicate DeleteRefused(t: Tree, places: Places, cat: Id, confirmed: bool, expected: nat, blocked: bool, siblings: seq<Id>, error: Error) {
    match error
    case ConfirmationRequired => !confirmed
    case NotFound => cat !in t || t[cat].deleted
    case VersionConflict => cat in places && places[cat].version != expected
    case DeleteBlocked => blocked
    case NumberLimitExceeded => |siblings| > 100_000
    case _ => false
  }

  lemma DeleteRefusals(t: Tree, places: Places, cat: Id, confirmed: bool, expected: nat, blocked: bool, siblings: seq<Id>)
    ensures !confirmed ==> DeleteRefused(t, places, cat, confirmed, expected, blocked, siblings, ConfirmationRequired)
    ensures cat !in t || t[cat].deleted ==> DeleteRefused(t, places, cat, confirmed, expected, blocked, siblings, NotFound)
    ensures cat in places && places[cat].version != expected ==>
              DeleteRefused(t, places, cat, confirmed, expected, blocked, siblings, VersionConflict)
    ensures blocked ==> DeleteRefused(t, places, cat, confirmed, expected, blocked, siblings, DeleteBlocked)
    ensures |siblings| > 100_000 ==> DeleteRefused(t, places, cat, confirmed, expected, blocked, siblings, NumberLimitExceeded)
  {
  }

  /** The siblings that a deletion leaves. */
  lemma RemainingSiblings(t: Tree, places: Places, cat: Id, siblings: seq<Id>)
    requires Sound(t) && cat in t && !t[cat].deleted && Placed(t, places) && IsOrder(t, places, t[cat].parent, siblings)
    ensures AreSiblings(Deleted(t, cat), t[cat].parent, Without(siblings, cat)) && Others(siblings, cat, Without(siblings, cat))
    ensures Deleted(t, cat)[cat].parent == t[cat].parent && forall i | i in Deleted(t, cat) :: DeletedRow(t, cat, i, Deleted(t, cat)[i])
    ensures TooMany(Without(siblings, cat)) <==> |siblings| > 100_000
  {
    hide Sorted, Others;
    var u := Deleted(t, cat);
    forall i ensures Sibling(u, t[cat].parent, i) <==> Sibling(t, t[cat].parent, i) && i != cat {
      if i in t && t[i].parent == t[cat].parent && Under(t, i, cat) {
        UnderIsDeeper(t, i, cat);
      }
    }
    WithoutIsOthers(siblings, cat);
    TooManyIff(Without(siblings, cat));
  }

  lemma DeletedStamps(t: Tree, before: Places, between: Places, u: Tree, now: Places)
    requires t.Keys == u.Keys && SameCodes(before, between)
    requires forall i | i in u && i in between && i in before && i in t && u[i] != t[i] :: between[i].version > before[i].version
    requires forall i | i in between && i !in {} :: i in now && Stamped(between[i], now[i])
    ensures RowsStamped(t, before, u, now)
  {
    forall i | i in before ensures i in now && Stamped(before[i], now[i]) {
      assert i in between && i !in {};
    }
  }

  /** The rows left behind and the new siblings have no category in common. */
  lemma Apart(t: Tree, cat: Id, target: Option<Id>, level: int, sourceRows: seq<Id>, dest: seq<Id>)
    requires cat in t && cat !in sourceRows && forall i | i in sourceRows :: Sibling(t, t[cat].parent, i)
    requires Family(Hung(t, cat, target, level), target, dest)
    ensures t[cat].parent != target ==> forall i | i in sourceRows :: i !in dest
  {
  }

  lemma NumberedKept(a: Places, b: Places, rows: seq<Id>, dest: seq<Id>)
    requires Numbered(a, rows) && (forall i | i in rows :: i !in dest)
    requires forall i | i in a && i !in dest :: i in b && b[i] == a[i]
    ensures Numbered(b, rows)
  {
    forall k | 0 <= k < |rows| ensures rows[k] in b && b[rows[k]] == a[rows[k]] {
      assert rows[k] in rows;
    }
  }

  lemma HungShape(t: Tree, cat: Id, target: Option<Id>, level: int, places: Places)
    requires Forest(t) && cat in t && CodesUnique(Hung(t, cat, target, level), places)
    ensures CodesUnique(Moved(t, cat, target, level), places)
  {
    var hung, moved := Hung(t, cat, target, level), Moved(t, cat, target, level);
    assert hung.Keys == t.Keys == moved.Keys;
    forall i | i in hung ensures moved[i].parent == hung[i].parent && moved[i].deleted == hung[i].deleted {
      assert i in t && (i == cat || hung[i] == t[i]);
    }
    ShapeUnique(hung, moved, places);
  }

  /** To the unique index only parents and deletions matter. */
  lemma ShapeUnique(t: Tree, u: Tree, places: Places)
    requires CodesUnique(t, places) && u.Keys == t.Keys
    requires forall i | i in t :: u[i].parent == t[i].parent && (t[i].deleted ==> u[i].deleted)
    ensures CodesUnique(u, places)
  {
  }

  lemma SoundIsForest(t: Tree)
    requires Sound(t)
    ensures Forest(t)
  {
  }

  lemma UniqueIsPlaced(t: Tree, places: Places)
    requires CodesUnique(t, places)
    ensures t.Keys == places.Keys
  {
  }

  lemma SameCodesUnique(t: Tree, a: Places, b: Places)
    requires CodesUnique(t, a) && SameCodes(a, b)
    ensures CodesUnique(t, b)
  {
  }

  lemma SameCodesFresh(a: Places, b: Places, prefix: string)
    requires Fresh(a, prefix) && SameCodes(a, b)
    ensures Fresh(b, prefix)
  {
  }

  lemma SameOutcome(before: Places, a: Places, b: Places, dest: seq<Id>, cat: Id, temporary: string)
    requires forall k | 0 <= k < |dest| :: dest[k] in before && dest[k] in a
    requires MoveOutcome(before, a, dest, cat, temporary) && SameCodes(a, b)
    ensures MoveOutcome(before, b, dest, cat, temporary)
    ensures forall rows: seq<Id> | Numbered(a, rows) :: Numbered(b, rows)
  {
  }

  lemma StampsStay(t: Tree, before: Places, between: Places, u: Tree, now: Places, cat: Id)
    requires AllStamped(before, between) && SameCodes(between, now) && t.Keys == u.Keys && cat in t && cat in before && cat in between
    requires between[cat].version > before[cat].version
    requires forall i | i in t && i != cat && i in between && i in now && u[i] != t[i] :: now[i].version > between[i].version
    ensures RowsStamped(t, before, u, now)
  {
  }

  lemma SiblingsStay(t: Tree, cat: Id, target: Option<Id>, level: int, dest: seq<Id>)
    requires Forest(t) && cat in t
    ensures AreSiblings(Hung(t, cat, target, level), target, dest) ==> AreSiblings(Moved(t, cat, target, level), target, dest)
  {
    forall i ensures Sibling(Hung(t, cat, target, level), target, i) <==> Sibling(Moved(t, cat, target, level), target, i) {
    }
  }

  predicate Shifted(before: Tree, after: Tree, work: set<Id>, delta: int) {
    && after.Keys == before.Keys
    && forall i | i in before :: after[i] == if i in work then before[i].(level := before[i].level + delta) else before[i]
  }

  predicate SameCodes(a: Places, b: Places) {
    a.Keys == b.Keys && forall i | i in a :: b[i].code == a[i].code && b[i].sortOrder == a[i].sortOrder && b[i].version >= a[i].version
  }

  lemma NothingShifted(t: Tree, delta: int)
    ensures Shifted(t, t, {}, delta)
  {
  }

  lemma ShiftedStep(before: Tree, now: Tree, done: set<Id>, i: Id, delta: int)
    requires Shifted(before, now, done, delta) && i in now && i !in done
    ensures Shifted(before, now[i := now[i].(level := now[i].level + delta)], done + {i}, delta)
  {
  }

  lemma FollowingNode(before: Tree, cat: Id, target: Option<Id>, level: int, i: Id, now: Node)
    requires Forest(before) && cat in before && i in before
    requires var hung := Hung(before, cat, target, level)[i];
      now == if i in Subtree(before, cat) - {cat} then hung.(level := hung.level + (level - before[cat].level)) else hung
    ensures now == Moved(before, cat, target, level)[i]
  {
  }

  lemma FollowingEnds(before: Tree, cat: Id, target: Option<Id>, level: int, now: Tree)
    requires Forest(before) && cat in before
    requires Shifted(Hung(before, cat, target, level), now, Subtree(before, cat) - {cat}, level - before[cat].level)
    ensures now == Moved(before, cat, target, level)
  {
    var moved := Moved(before, cat, target, level);
    assert now.Keys == moved.Keys;
    forall i | i in now ensures now[i] == moved[i] {
      FollowingNode(before, cat, target, level, i, now[i]);
    }
  }

  // ---- a move that leaves the temporary code ----

  /** Two roots numbered as they should be. */
  predicate TwoRoots(t: Tree, places: Places) {
    var a, b := Id("a"), Id("b");
    && t == map[a := Node(None, 1, "a", Name("A", "a"), true, false, true, true, false),
                b := Node(None, 1, "b", Name("B", "b"), true, false, true, true, false)]
    && places == map[a := Place("01", 10, 1), b := Place("02", 20, 1)]
  }

  lemma TwoRootsListed(t: Tree, places: Places)
    requires TwoRoots(t, places)
    ensures IsOrder(t, places, None, [Id("a"), Id("b")]) && !Changed(places, [Id("a"), Id("b")]) && !TooMany([Id("a"), Id("b")])
  {
    var rows := [Id("a"), Id("b")];
    assert Number(1, 2) == "01" && Number(2, 2) == "02";
    assert rows[0] == Id("a") && rows[1] == Id("b");
    assert AreSiblings(t, None, rows) by {
      forall i ensures i in rows <==> Sibling(t, None, i) {
      }
    }
    assert Numbered(places, rows);
    NumberedOrder(t, places, None, rows, rows);
  }

  /** The second root may be moved to the end, where it already stands. */
  lemma MoveToTheEnd(t: Tree, places: Places)
    requires TwoRoots(t, places) && Forest(t)
    ensures var rows := [Id("a"), Id("b")];
      && MoveAllowed(t, places, Id("b"), None, None, 1) && MoveFits(t, Id("b"), None, rows, rows)
      && NewSiblings(t, Id("b"), None, rows, rows) == rows
  {
    var a, b := Id("a"), Id("b");
    assert a in t && t[a].name.folded == "a" && t[b].name.folded == "b";
  }

  lemma StillInPlace(rows: seq<Id>, k: nat)
    requires AskedAt([Id("a"), Id("b")], Id("b"), None, rows, k)
    ensures rows == [Id("a"), Id("b")]
  {
    var a, b := Id("a"), Id("b");
    var others := rows[..k] + rows[k + 1..];
    var j :| StandsAt([a, b], j, b, others);
    assert a != b && j == 1 && others == [a];
    assert rows[0] == others[0];
  }

  lemma TwoRootsFresh(t: Tree, places: Places, m: Marks)
    requires TwoRoots(t, places) && Marked(m.move) && Marked(m.source) && Marked(m.destination)
    requires !(m.source <= m.move) && !(m.destination <= m.move)
    ensures FreshMarks(places, m)
  {
  }

  /**
   Two roots, and the second moved to the end, where it already stands: nothing differs from what
   was read, so the category keeps the temporary code.
   */
  method KeepTemporaryCode(m: Marks) returns (c: Catalogue)
    requires Marked(m.move) && Marked(m.source) && Marked(m.destination)
    requires !(m.source <= m.move) && !(m.destination <= m.move)
    ensures fresh(c) && c.Inv() && Id("b") in c.places && c.places[Id("b")].code == m.move
  {
    var a, b := Id("a"), Id("b");
    c := new Catalogue();
    var first := c.CreateWithCode(a, None, "a", Name("A", "a"), "01", 10);
    assert first.Ok?;
    var second := c.CreateWithCode(b, None, "b", Name("B", "b"), "02", 20);
    assert second.Ok?;
    assert TwoRoots(c.tree, c.places);
    TwoRootsListed(c.tree, c.places);
    MoveToTheEnd(c.tree, c.places);
    TwoRootsFresh(c.tree, c.places, m);
    var moved := c.MoveCategory(b, None, None, 1, [a, b], [a, b], m);
    assert moved.Ok?;
    ghost var k: nat :| AskedAt([a, b], b, None, moved.value, k);
    StillInPlace(moved.value, k);
    assert moved.value[1] == b;
  }
}
