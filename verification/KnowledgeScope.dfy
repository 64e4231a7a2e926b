/**
 Which categories a chat may search.  The chat's own resolver memoises a check that climbs to the
 root and then walks down with a stack; the attachment search asks one recursive query instead.
 */
module KnowledgeScope {
  import opened Prelude
  import opened CategoryForest

  /** Every category from here up to the root is live, active and open to chat. */
  predicate Effective(t: Tree, x: Id)
    requires Forest(t) && x in t
    decreases t[x].level
  {
    !t[x].deleted && t[x].active && t[x].chat && (t[x].parent.Some? ==> Effective(t, t[x].parent.value))
  }

  /** Every one of them may also be picked as a filter. */
  predicate FilterEffective(t: Tree, x: Id)
    requires Forest(t) && x in t
    decreases t[x].level
  {
    Effective(t, x) && t[x].selectable && (t[x].parent.Some? ==> FilterEffective(t, t[x].parent.value))
  }

  // ---- the recursive query of the attachment search ----

  const Admits := (p: Node, c: Node) => c.active && !c.deleted && p.chat

  function ActiveRoots(t: Tree): set<Id> {
    set i | i in t && t[i].parent.None? && t[i].active && !t[i].deleted
  }

  /** The categories of VISIBLE_CTE, and of those the ones whose files are shown. */
  ghost predicate Visible(t: Tree, x: Id) {
    Reached(t, ActiveRoots(t), Admits, x) && x in t && t[x].chat
  }

  lemma {:induction false} ClimbsIffEffective(t: Tree, x: Id)
    requires Forest(t) && x in t
    ensures Climbs(t, ActiveRoots(t), Admits, x) && t[x].chat <==> Effective(t, x)
    decreases t[x].level
  {
    if t[x].parent.Some? {
      ClimbsIffEffective(t, t[x].parent.value);
    }
  }

  /** The two algorithms agree on every forest. */
  lemma VisibleIffEffective(t: Tree, x: Id)
    requires Forest(t)
    ensures Visible(t, x) <==> x in t && Effective(t, x)
  {
    ReachedIff(t, ActiveRoots(t), Admits, x);
    if x in t {
      ClimbsIffEffective(t, x);
    }
  }

  // ---- the listing both start from ----

  const AdmitsLive := (p: Node, c: Node) => !c.deleted

  function LiveRoots(t: Tree): set<Id> {
    set i | i in t && t[i].parent.None? && !t[i].deleted
  }

  /** The rows of the resolver's query, each once, in some order. */
  ghost predicate IsListing(t: Tree, rows: seq<Id>) {
    && (forall i, j | 0 <= i < j < |rows| :: rows[i] != rows[j])
    && (forall x :: x in rows <==> Reached(t, LiveRoots(t), AdmitsLive, x))
  }

  lemma {:induction false} EffectiveIsListed(t: Tree, rows: seq<Id>, x: Id)
    requires Forest(t) && IsListing(t, rows) && x in t && Effective(t, x)
    ensures x in rows
    decreases t[x].level
  {
    if t[x].parent.Some? {
      EffectiveIsListed(t, rows, t[x].parent.value);
    }
    ReachedIff(t, LiveRoots(t), AdmitsLive, x);
    if t[x].parent.Some? {
      ReachedIff(t, LiveRoots(t), AdmitsLive, t[x].parent.value);
    }
  }

  lemma ListedIsLive(t: Tree, rows: seq<Id>, x: Id)
    requires Forest(t) && IsListing(t, rows) && x in rows
    ensures x in t && !t[x].deleted && (t[x].parent.Some? ==> t[x].parent.value in rows)
  {
    ReachedIff(t, LiveRoots(t), AdmitsLive, x);
    if t[x].parent.Some? {
      ReachedIff(t, LiveRoots(t), AdmitsLive, t[x].parent.value);
    }
  }

  // ---- what the walk must return ----

  lemma {:induction false} EffectiveAbove(t: Tree, x: Id, s: Id)
    requires Forest(t) && x in t && Effective(t, x) && Under(t, x, s)
    ensures s in t && Effective(t, s)
    decreases t[x].level
  {
    if x != s {
      EffectiveAbove(t, t[x].parent.value, s);
    }
  }

  /** The child of `s` through which `x` lies below it. */
  lemma {:induction false} ChildTowards(t: Tree, x: Id, s: Id) returns (c: Id)
    requires Forest(t) && x in t && Under(t, x, s) && x != s
    ensures c in t && t[c].parent == Some(s) && Under(t, x, c)
    decreases t[x].level
  {
    if t[x].parent == Some(s) {
      c := x;
    } else {
      c := ChildTowards(t, t[x].parent.value, s);
    }
  }

  function Children(t: Tree, rows: seq<Id>, parent: Id): (r: seq<Id>)
    requires forall i | 0 <= i < |rows| :: rows[i] in t
    ensures |r| <= |rows| && forall c :: c in r <==> c in rows && t[c].parent == Some(parent)
  {
    if rows == [] then []
    else (if t[rows[0]].parent == Some(parent) then [rows[0]] else []) + Children(t, rows[1..], parent)
  }

  // ---- how long the walk can take ----

  function Times(n: nat, w: nat): nat { if n == 0 then 0 else w + Times(n - 1, w) }

  function Pow(b: nat, k: nat): nat { if k == 0 then 1 else Times(b, Pow(b, k - 1)) }

  /** A category weighs more than all the children a step can put in its place. */
  function Weight(t: Tree, rows: seq<Id>, depth: nat, x: Id): nat {
    if x in t && 0 <= t[x].level <= depth then Pow(|rows| + 1, depth - t[x].level) else 0
  }

  function TotalWeight(t: Tree, rows: seq<Id>, depth: nat, stack: seq<Id>): nat {
    if stack == [] then 0
    else TotalWeight(t, rows, depth, stack[..|stack| - 1]) + Weight(t, rows, depth, stack[|stack| - 1])
  }

  predicate Deep(t: Tree, depth: nat) { forall i | i in t :: t[i].level <= depth }

  lemma {:induction false} PushWeight(t: Tree, rows: seq<Id>, depth: nat, stack: seq<Id>, more: seq<Id>, w: nat)
    requires forall i | 0 <= i < |more| :: Weight(t, rows, depth, more[i]) == w
    ensures TotalWeight(t, rows, depth, stack + more) == TotalWeight(t, rows, depth, stack) + Times(|more|, w)
  {
    if more == [] {
      assert stack + more == stack;
    } else {
      var n := |more| - 1;
      PushWeight(t, rows, depth, stack, more[..n], w);
      assert (stack + more)[..|stack| + n] == stack + more[..n];
    }
  }

  lemma PopWeight(t: Tree, rows: seq<Id>, depth: nat, stack: seq<Id>, x: Id)
    ensures TotalWeight(t, rows, depth, stack + [x]) == TotalWeight(t, rows, depth, stack) + Weight(t, rows, depth, x)
  {
    assert (stack + [x])[..|stack|] == stack;
  }

  /** Each child weighs the same, and a category as much as one child more than there are rows. */
  lemma ChildWeight(t: Tree, rows: seq<Id>, depth: nat, x: Id, c: Id) returns (w: nat)
    requires Forest(t) && Deep(t, depth) && x in t && c in t && t[c].parent == Some(x)
    ensures w == Pow(|rows| + 1, depth - t[c].level) == Weight(t, rows, depth, c) && w > 0
    ensures Weight(t, rows, depth, x) == Times(|rows| + 1, w)
  {
    w := Pow(|rows| + 1, depth - t[c].level);
    PowPositive(|rows| + 1, depth - t[c].level);
  }

  lemma SwapWeighsLess(t: Tree, rows: seq<Id>, depth: nat, stack: seq<Id>, more: seq<Id>, x: Id, w: nat)
    requires |more| <= |rows| && w > 0 && Weight(t, rows, depth, x) == Times(|rows| + 1, w)
    requires forall i | 0 <= i < |more| :: Weight(t, rows, depth, more[i]) == w
    ensures TotalWeight(t, rows, depth, stack + more) < TotalWeight(t, rows, depth, stack + [x])
  {
    var base, m, n := TotalWeight(t, rows, depth, stack), Times(|more|, w), Times(|rows| + 1, w);
    PopWeight(t, rows, depth, stack, x);
    PushWeight(t, rows, depth, stack, more, w);
    LessTimes(|more|, |rows| + 1, w);
    assert base + m < base + n;
  }

  lemma ChildrenWeighLess(t: Tree, rows: seq<Id>, depth: nat, stack: seq<Id>, x: Id)
    requires Forest(t) && Deep(t, depth) && x in t && forall i | 0 <= i < |rows| :: rows[i] in t
    ensures TotalWeight(t, rows, depth, stack + Children(t, rows, x)) < TotalWeight(t, rows, depth, stack + [x])
  {
    var more := Children(t, rows, x);
    if more == [] {
      assert stack + more == stack;
      PopWeight(t, rows, depth, stack, x);
      PowPositive(|rows| + 1, depth - t[x].level);
    } else {
      assert more[0] in more;
      var w := ChildWeight(t, rows, depth, x, more[0]);
      forall i | 0 <= i < |more| ensures Weight(t, rows, depth, more[i]) == w {
        assert more[i] in more;
        var v := ChildWeight(t, rows, depth, x, more[i]);
      }
      SwapWeighsLess(t, rows, depth, stack, more, x, w);
    }
  }

  lemma LastSplit(s: seq<Id>)
    requires s != []
    ensures s == s[..|s| - 1] + [s[|s| - 1]]
  {
  }

  lemma WalkGetsLighter(t: Tree, rows: seq<Id>, depth: nat, stack: seq<Id>)
    requires Forest(t) && Deep(t, depth) && (forall i | 0 <= i < |rows| :: rows[i] in t)
    requires stack != [] && stack[|stack| - 1] in t
    ensures var rest := stack[..|stack| - 1];
      && TotalWeight(t, rows, depth, rest) < TotalWeight(t, rows, depth, stack)
      && TotalWeight(t, rows, depth, rest + Children(t, rows, stack[|stack| - 1])) < TotalWeight(t, rows, depth, stack)
  {
    var x := stack[|stack| - 1];
    LastSplit(stack);
    ChildrenWeighLess(t, rows, depth, stack[..|stack| - 1], x);
    PowPositive(|rows| + 1, depth - t[x].level);
  }

  lemma {:induction false} PowPositive(b: nat, k: nat)
    requires b > 0
    ensures Pow(b, k) > 0
  {
    if k > 0 {
      PowPositive(b, k - 1);
      LessTimes(0, b, Pow(b, k - 1));
    }
  }

  lemma {:induction false} LessTimes(m: nat, n: nat, w: nat)
    requires m < n && w > 0
    ensures Times(m, w) < Times(n, w)
  {
    if m > 0 {
      LessTimes(m - 1, n - 1, w);
    }
  }

  // ---- the resolver ----

  datatype ScopeError = ScopeNotFound | ScopeUnavailable | ScopeNotSelectable

  /** A token names a category by its id, else by its key, else by its name; the last row of a key or name wins. */
  function LastWhere(rows: seq<Id>, test: Id -> bool): (r: Option<Id>)
    ensures r.Some? ==> r.value in rows && test(r.value)
    ensures r.None? ==> forall i | 0 <= i < |rows| :: !test(rows[i])
  {
    if rows == [] then None
    else if test(rows[|rows| - 1]) then Some(rows[|rows| - 1])
    else LastWhere(rows[..|rows| - 1], test)
  }

  function Named(t: Tree, rows: seq<Id>, token: string): (r: Option<Id>)
    requires forall i | 0 <= i < |rows| :: rows[i] in t
    ensures r.Some? ==> r.value in rows
  {
    if Id(token) in rows then Some(Id(token))
    else
      var byKey := LastWhere(rows, (i: Id) => i in t && t[i].key == token);
      if byKey.Some? then byKey else LastWhere(rows, (i: Id) => i in t && t[i].name.shown == token)
  }

  predicate LastAt(rows: seq<Id>, test: Id -> bool, k: nat) {
    k < |rows| && test(rows[k]) && forall j | k < j < |rows| :: !test(rows[j])
  }

  lemma {:induction false} LastWhereIs(rows: seq<Id>, test: Id -> bool)
    ensures var r := LastWhere(rows, test);
      r.Some? ==> exists k: nat :: LastAt(rows, test, k) && rows[k] == r.value
  {
    if rows != [] {
      var n := |rows| - 1;
      if test(rows[n]) {
        assert LastAt(rows, test, n);
      } else {
        LastWhereIs(rows[..n], test);
        if LastWhere(rows[..n], test).Some? {
          var k: nat :| LastAt(rows[..n], test, k) && rows[..n][k] == LastWhere(rows[..n], test).value;
          assert LastAt(rows, test, k);
        }
      }
    }
  }

  /** The row at `k` is the last one with a key, or with a name. */
  predicate LastWithKey(t: Tree, rows: seq<Id>, key: string, k: nat) {
    && k < |rows| && rows[k] in t && t[rows[k]].key == key
    && forall j | k < j < |rows| :: rows[j] in t ==> t[rows[j]].key != key
  }

  predicate LastWithName(t: Tree, rows: seq<Id>, name: string, k: nat) {
    && k < |rows| && rows[k] in t && t[rows[k]].name.shown == name
    && forall j | k < j < |rows| :: rows[j] in t ==> t[rows[j]].name.shown != name
  }

  /**
   What a token names: the row with that id; if there is none the last row with that key; if there
   is none either, the last row with that name.
   */
  lemma NamedIs(t: Tree, rows: seq<Id>, token: string)
    requires forall i | 0 <= i < |rows| :: rows[i] in t
    ensures Id(token) in rows ==> Named(t, rows, token) == Some(Id(token))
    ensures Id(token) !in rows && (exists i | i in rows :: t[i].key == token) ==>
              exists k: nat :: LastWithKey(t, rows, token, k) && Named(t, rows, token) == Some(rows[k])
    ensures Id(token) !in rows && (forall i | i in rows :: t[i].key != token) && (exists i | i in rows :: t[i].name.shown == token) ==>
              exists k: nat :: LastWithName(t, rows, token, k) && Named(t, rows, token) == Some(rows[k])
    ensures Named(t, rows, token).None? <==>
            Id(token) !in rows && forall i | i in rows :: t[i].key != token && t[i].name.shown != token
  {
    var byKey, byName := (i: Id) => i in t && t[i].key == token, (i: Id) => i in t && t[i].name.shown == token;
    LastWhereIs(rows, byKey);
    LastWhereIs(rows, byName);
    if LastWhere(rows, byKey).Some? {
      var k: nat :| LastAt(rows, byKey, k) && rows[k] == LastWhere(rows, byKey).value;
      assert LastWithKey(t, rows, token, k);
    }
    if LastWhere(rows, byName).Some? {
      var k: nat :| LastAt(rows, byName, k) && rows[k] == LastWhere(rows, byName).value;
      assert LastWithName(t, rows, token, k);
    }
  }

  /** The verdict on one requested token. */
  function Chosen(t: Tree, rows: seq<Id>, token: string): Result<Id, ScopeError>
    requires Forest(t) && forall i | 0 <= i < |rows| :: rows[i] in t
  {
    var found := Named(t, rows, token);
    if found.None? then Err(ScopeNotFound)
    else if !Effective(t, found.value) then Err(ScopeUnavailable)
    else if !FilterEffective(t, found.value) then Err(ScopeNotSelectable)
    else Ok(found.value)
  }

  /** The keys of the effective categories at or below the selection. */
  ghost predicate IsScope(t: Tree, selected: seq<Id>, keys: set<string>)
    requires Forest(t)
  {
    forall key :: key in keys <==>
      exists x | x in t :: t[x].key == key && Effective(t, x) && exists s | s in selected :: Under(t, x, s)
  }

  /** `x` lies at or below one of the categories listed. */
  predicate BelowAny(t: Tree, x: Id, list: seq<Id>)
    requires Forest(t) && x in t
  {
    exists s | s in list :: Under(t, x, s)
  }

  /** What the walk has found so far. */
  ghost predicate Collected(t: Tree, selected: seq<Id>, seen: set<Id>, keys: set<string>)
    requires Forest(t)
  {
    && (forall x | x in seen :: x in t && Effective(t, x) && BelowAny(t, x, selected))
    && (forall key :: key in keys <==> exists x | x in seen :: x in t && t[x].key == key)
  }

  /** What it still has to find lies below the stack. */
  ghost predicate ToCome(t: Tree, selected: seq<Id>, stack: seq<Id>, seen: set<Id>)
    requires Forest(t)
  {
    && (forall s | s in stack :: s in t && BelowAny(t, s, selected))
    && (forall x | x in t && Effective(t, x) && BelowAny(t, x, selected) :: x in seen || BelowAny(t, x, stack))
  }

  lemma {:induction false} UnderTrans(t: Tree, x: Id, y: Id, z: Id)
    requires Forest(t) && x in t && y in t && Under(t, x, y) && Under(t, y, z)
    ensures Under(t, x, z)
    decreases t[x].level
  {
    if x != y {
      UnderTrans(t, t[x].parent.value, y, z);
    }
  }

  /** A category on the stack that is not effective has nothing effective below it. */
  lemma PopKeeps(t: Tree, selected: seq<Id>, stack: seq<Id>, seen: set<Id>, x: Id)
    requires Forest(t) && x in t && ToCome(t, selected, stack + [x], seen) && !Effective(t, x)
    ensures ToCome(t, selected, stack, seen)
  {
    assert forall s | s in stack :: s in stack + [x];
    forall y | y in t && Effective(t, y) && BelowAny(t, y, selected) ensures y in seen || BelowAny(t, y, stack) {
      if y !in seen {
        var s :| s in stack + [x] && Under(t, y, s);
        if s !in stack {
          EffectiveAbove(t, y, x);
        }
      }
    }
  }

  /** An effective one is done with once its children are on the stack. */
  lemma PushKeeps(t: Tree, rows: seq<Id>, selected: seq<Id>, stack: seq<Id>, seen: set<Id>, x: Id)
    requires Forest(t) && IsListing(t, rows) && (forall i | 0 <= i < |rows| :: rows[i] in t)
    requires x in t && ToCome(t, selected, stack + [x], seen)
    ensures ToCome(t, selected, stack + Children(t, rows, x), seen + {x})
  {
    var more := Children(t, rows, x);
    assert x in stack + [x];
    forall s | s in stack + more ensures s in t && BelowAny(t, s, selected) {
      if s in stack {
        assert s in stack + [x];
      } else {
        var r :| r in selected && Under(t, x, r);
        UnderTrans(t, s, x, r);
      }
    }
    forall y | y in t && Effective(t, y) && BelowAny(t, y, selected)
      ensures y in seen + {x} || BelowAny(t, y, stack + more)
    {
      if y !in seen && y != x {
        var s :| s in stack + [x] && Under(t, y, s);
        if s in stack {
          assert s in stack + more;
        } else {
          var c := ChildTowards(t, y, x);
          EffectiveAbove(t, y, c);
          EffectiveIsListed(t, rows, c);
          assert c in stack + more;
        }
      }
    }
  }

  lemma ToStart(t: Tree, selected: seq<Id>)
    requires Forest(t) && forall s | s in selected :: s in t
    ensures ToCome(t, selected, selected, {}) && Collected(t, selected, {}, {})
  {
    forall s | s in selected ensures BelowAny(t, s, selected) {
      assert Under(t, s, s);
    }
  }

  lemma CollectOne(t: Tree, selected: seq<Id>, seen: set<Id>, keys: set<string>, x: Id)
    requires Forest(t) && x in t && Collected(t, selected, seen, keys) && Effective(t, x) && BelowAny(t, x, selected)
    ensures Collected(t, selected, seen + {x}, keys + {t[x].key})
  {
    forall key ensures key in keys + {t[x].key} <==> exists y | y in seen + {x} :: y in t && t[y].key == key {
      if key in keys {
        var y :| y in seen && y in t && t[y].key == key;
        assert y in seen + {x};
      }
      assert x in seen + {x};
    }
  }

  lemma AllFound(t: Tree, selected: seq<Id>, seen: set<Id>, keys: set<string>)
    requires Forest(t) && Collected(t, selected, seen, keys) && ToCome(t, selected, [], seen)
    ensures IsScope(t, selected, keys)
  {
    forall key
      ensures key in keys <==> exists x | x in t :: t[x].key == key && Effective(t, x) && exists s | s in selected :: Under(t, x, s)
    {
      if x :| x in t && t[x].key == key && Effective(t, x) && exists s | s in selected :: Under(t, x, s) {
        assert BelowAny(t, x, selected);
        assert !BelowAny(t, x, []);
      }
    }
  }

  lemma {:induction false} DeepExists(t: Tree) returns (depth: nat)
    ensures Deep(t, depth)
    decreases |t|
  {
    if t == map[] {
      depth := 0;
    } else {
      var i :| i in t;
      var d := DeepExists(t - {i});
      depth := if t[i].level > d then t[i].level else d;
      assert forall k | k in t && k != i :: k in t - {i} && (t - {i})[k] == t[k];
    }
  }

  class Resolver {
    const t: Tree
    const rows: seq<Id>
    var effective: map<Id, bool>
    var filterEffective: map<Id, bool>

    ghost predicate Valid()
      reads this
    {
      && Forest(t) && IsListing(t, rows) && (forall i | 0 <= i < |rows| :: rows[i] in t)
      && (forall i | i in effective :: i in rows && effective[i] == Effective(t, i))
      && (forall i | i in filterEffective :: i in rows && filterEffective[i] == FilterEffective(t, i))
    }

    constructor (t: Tree, rows: seq<Id>)
      requires Forest(t) && IsListing(t, rows)
      ensures Valid() && this.t == t && this.rows == rows
    {
      this.t, this.rows, effective, filterEffective := t, rows, map[], map[];
      new;
      forall i | 0 <= i < |rows| ensures rows[i] in t {
        ListedIsLive(t, rows, rows[i]);
      }
    }

    method IsEffective(x: Id) returns (available: bool)
      requires Valid() && x in rows
      modifies this`effective
      ensures Valid() && available == Effective(t, x)
      decreases t[x].level
    {
      if x in effective {
        return effective[x];
      }
      ListedIsLive(t, rows, x);
      var parentAvailable := true;
      if t[x].parent.Some? {
        parentAvailable := t[x].parent.value in rows;
        if parentAvailable {
          parentAvailable := IsEffective(t[x].parent.value);
        }
      }
      available := t[x].active && t[x].chat && parentAvailable;
      effective := effective[x := available];
    }

    method IsFilterEffective(x: Id) returns (available: bool)
      requires Valid() && x in rows
      modifies this`effective, this`filterEffective
      ensures Valid() && available == FilterEffective(t, x)
      decreases t[x].level
    {
      if x in filterEffective {
        return filterEffective[x];
      }
      ListedIsLive(t, rows, x);
      var parentAvailable := true;
      if t[x].parent.Some? {
        parentAvailable := t[x].parent.value in rows;
        if parentAvailable {
          parentAvailable := IsFilterEffective(t[x].parent.value);
        }
      }
      var here := IsEffective(x);
      available := here && t[x].selectable && parentAvailable;
      filterEffective := filterEffective[x := available];
    }

    /** The rows requested, once each; the first token that cannot be used decides the error. */
    method Select(requested: seq<string>) returns (r: Result<seq<Id>, ScopeError>)
      requires Valid()
      modifies this`effective, this`filterEffective
      ensures Valid()
      ensures r.Ok? ==> forall i | 0 <= i < |requested| :: Chosen(t, rows, requested[i]).Ok? && Chosen(t, rows, requested[i]).value in r.value
      ensures r.Ok? ==> forall i, j | 0 <= i < j < |r.value| :: r.value[i] != r.value[j]
      ensures r.Ok? ==> forall s | s in r.value :: exists i | 0 <= i < |requested| :: Chosen(t, rows, requested[i]) == Ok(s)
      ensures r.Err? ==> exists i | 0 <= i < |requested| :: Chosen(t, rows, requested[i]) == Err(r.error)
                                                         && forall j | 0 <= j < i :: Chosen(t, rows, requested[j]).Ok?
    {
      var selected: seq<Id> := [];
      for k := 0 to |requested|
        invariant Valid()
        invariant forall i | 0 <= i < k :: Chosen(t, rows, requested[i]).Ok? && Chosen(t, rows, requested[i]).value in selected
        invariant forall i, j | 0 <= i < j < |selected| :: selected[i] != selected[j]
        invariant forall s | s in selected :: exists i | 0 <= i < k :: Chosen(t, rows, requested[i]) == Ok(s)
      {
        var row := Named(t, rows, requested[k]);
        if row.None? {
          return Err(ScopeNotFound);
        }
        var available := IsEffective(row.value);
        if !available {
          return Err(ScopeUnavailable);
        }
        var selectable := IsFilterEffective(row.value);
        if !selectable {
          return Err(ScopeNotSelectable);
        }
        if row.value !in selected {
          selected := selected + [row.value];
        }
      }
      return Ok(selected);
    }

    /** Walk down from the selection with a stack. */
    method Walk(selected: seq<Id>) returns (keys: set<string>)
      requires Valid() && forall s | s in selected :: s in rows
      modifies this`effective
      ensures Valid() && IsScope(t, selected, keys)
    {
      keys := {};
      var stack := selected;
      ghost var seen: set<Id> := {};
      ghost var depth := DeepExists(t);
      ToStart(t, selected);
      while stack != []
        invariant Valid() && forall s | s in stack :: s in rows
        invariant Collected(t, selected, seen, keys) && ToCome(t, selected, stack, seen)
        decreases TotalWeight(t, rows, depth, stack)
      {
        var x := stack[|stack| - 1];
        ghost var before := stack;
        stack := stack[..|stack| - 1];
        LastSplit(before);
        WalkGetsLighter(t, rows, depth, before);
        var here := IsEffective(x);
        if here {
          assert x in stack + [x];
          CollectOne(t, selected, seen, keys, x);
          keys := keys + {t[x].key};
          PushKeeps(t, rows, selected, stack, seen, x);
          seen := seen + {x};
          stack := stack + Children(t, rows, x);
        } else {
          PopKeeps(t, selected, stack, seen, x);
        }
      }
      AllFound(t, selected, seen, keys);
    }

    /**
     `resolve_category_scope`: without a selection everything the attachment search would show,
     otherwise the part of it at or below the selection.
     */
    method ResolveCategoryScope(categoryIds: Option<seq<string>>, legacy: Option<seq<string>>)
      returns (r: Result<set<string>, ScopeError>, ghost selected: seq<Id>)
      requires Valid()
      modifies this`effective, this`filterEffective
      ensures Valid()
      ensures categoryIds.None? && legacy.None? ==>
                r.Ok? && forall key :: key in r.value <==> exists x | x in t :: t[x].key == key && Visible(t, x)
      ensures var requested := if categoryIds.Some? then categoryIds else legacy; requested.Some? ==>
                && (r.Ok? <==> forall i | 0 <= i < |requested.value| :: Chosen(t, rows, requested.value[i]).Ok?)
                && (r.Ok? ==> IsScope(t, selected, r.value) && forall s :: s in selected <==>
                      exists i | 0 <= i < |requested.value| :: Chosen(t, rows, requested.value[i]) == Ok(s))
                && (r.Err? ==> exists i | 0 <= i < |requested.value| :: Chosen(t, rows, requested.value[i]) == Err(r.error)
                                                                     && forall j | 0 <= j < i :: Chosen(t, rows, requested.value[j]).Ok?)
    {
      var requested := if categoryIds.Some? then categoryIds else legacy;
      var chosen: seq<Id> := [];
      if requested.None? {
        for k := 0 to |rows|
          invariant Valid() && (forall s | s in chosen :: s in rows)
          invariant forall i | 0 <= i < k :: Effective(t, rows[i]) ==> rows[i] in chosen
        {
          var available := IsEffective(rows[k]);
          if available {
            chosen := chosen + [rows[k]];
          }
        }
      } else {
        var picked := Select(requested.value);
        if picked.Err? {
          return Err(picked.error), [];
        }
        chosen := picked.value;
      }
      var keys := Walk(chosen);
      selected := chosen;
      r := Ok(keys);
      if requested.None? {
        EverythingVisible(t, rows, chosen, keys);
      }
    }
  }

  lemma EverythingVisible(t: Tree, rows: seq<Id>, chosen: seq<Id>, keys: set<string>)
    requires Forest(t) && IsListing(t, rows) && (forall i | 0 <= i < |rows| :: rows[i] in t) && IsScope(t, chosen, keys)
    requires forall i | 0 <= i < |rows| :: Effective(t, rows[i]) ==> rows[i] in chosen
    ensures forall key :: key in keys <==> exists x | x in t :: t[x].key == key && Visible(t, x)
  {
    forall x ensures Visible(t, x) <==> x in t && Effective(t, x) && exists s | s in chosen :: Under(t, x, s) {
      VisibleIffEffective(t, x);
      if x in t && Effective(t, x) {
        EffectiveIsListed(t, rows, x);
        assert Under(t, x, x);
      }
    }
  }
}
