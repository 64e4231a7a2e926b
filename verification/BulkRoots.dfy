/** Which categories a bulk operation on a selection covers: the selection's topmost ones and what is active below. */
module BulkRoots {
  import opened Prelude
  import opened CategoryForest

  predicate InInventory(t: Tree, x: Id) {
    x in t && t[x].active && !t[x].deleted
  }

  /** Active all the way from `x` up to `s`. */
  predicate ActiveUnder(t: Tree, x: Id, s: Id)
    requires Forest(t) && x in t
    decreases t[x].level
  {
    InInventory(t, x) && (x == s || (t[x].parent.Some? && ActiveUnder(t, t[x].parent.value, s)))
  }

  const AdmitsActive := (p: Node, c: Node) => c.active && !c.deleted

  function Start(t: Tree, root: Id): set<Id> {
    if InInventory(t, root) then {root} else {}
  }

  /** The rows of `_subtree_rows`. */
  ghost predicate InSubtree(t: Tree, root: Id, x: Id) {
    Reached(t, Start(t, root), AdmitsActive, x)
  }

  lemma {:induction false} ClimbsIffActive(t: Tree, root: Id, x: Id)
    requires Forest(t) && x in t
    ensures Climbs(t, Start(t, root), AdmitsActive, x) <==> ActiveUnder(t, x, root)
    decreases t[x].level
  {
    if t[x].parent.Some? {
      ClimbsIffActive(t, root, t[x].parent.value);
    }
  }

  lemma SubtreeIffActive(t: Tree, root: Id, x: Id)
    requires Forest(t)
    ensures InSubtree(t, root, x) <==> x in t && ActiveUnder(t, x, root)
  {
    ReachedIff(t, Start(t, root), AdmitsActive, x);
    if x in t {
      ClimbsIffActive(t, root, x);
    }
  }

  /** The query lists no category twice. */
  lemma {:induction false} ListedOnce(t: Tree, root: Id, x: Id, k: nat)
    requires Forest(t) && x in Layer(t, Start(t, root), AdmitsActive, k)
    ensures x in t && root in t && k == t[x].level - t[root].level
    decreases k
  {
    if k > 0 {
      ListedOnce(t, root, t[x].parent.value, k - 1);
    }
  }

  // ---- the walk up from a selected category ----

  /** Another selected category is found before the chain of active parents ends. */
  predicate Redundant(t: Tree, selected: seq<Id>, from: Option<Id>)
    requires Forest(t) && (from.Some? ==> from.value in t)
    decreases if from.Some? then t[from.value].level else 0
  {
    from.Some? && (from.value in selected || (InInventory(t, from.value) && Redundant(t, selected, t[from.value].parent)))
  }

  lemma {:induction false} RedundantIff(t: Tree, selected: seq<Id>, p: Id)
    requires Forest(t) && p in t && forall s | s in selected :: InInventory(t, s)
    ensures Redundant(t, selected, Some(p)) <==> exists s | s in selected :: ActiveUnder(t, p, s)
    decreases t[p].level
  {
    if p in selected {
      assert ActiveUnder(t, p, p);
    } else if t[p].parent.Some? {
      RedundantIff(t, selected, t[p].parent.value);
      if InInventory(t, p) && Redundant(t, selected, t[p].parent) {
        var s :| s in selected && ActiveUnder(t, t[p].parent.value, s);
        assert ActiveUnder(t, p, s);
      }
    }
  }

  lemma {:induction false} ActiveTrans(t: Tree, x: Id, y: Id, z: Id)
    requires Forest(t) && x in t && y in t && ActiveUnder(t, x, y) && ActiveUnder(t, y, z)
    ensures ActiveUnder(t, x, z)
    decreases t[x].level
  {
    if x != y {
      ActiveTrans(t, t[x].parent.value, y, z);
    }
  }

  /** Two categories with a common active descendant lie one below the other. */
  lemma {:induction false} OneAboveOther(t: Tree, x: Id, a: Id, b: Id)
    requires Forest(t) && x in t && ActiveUnder(t, x, a) && ActiveUnder(t, x, b)
    ensures a in t && b in t && (ActiveUnder(t, a, b) || ActiveUnder(t, b, a))
    decreases t[x].level
  {
    ActiveIsDeeper(t, x, a);
    ActiveIsDeeper(t, x, b);
    if x != a && x != b {
      OneAboveOther(t, t[x].parent.value, a, b);
    }
  }

  predicate AllActive(t: Tree, selected: seq<Id>) {
    forall s | s in selected :: InInventory(t, s)
  }

  /** The roots are the selected categories that are not redundant. */
  ghost predicate AreRoots(t: Tree, selected: seq<Id>, roots: seq<Id>)
    requires Forest(t) && AllActive(t, selected)
  {
    forall r :: r in roots <==> r in selected && !Redundant(t, selected, t[r].parent)
  }

  /** Every selected category lies below a root. */
  lemma {:induction false} RootAbove(t: Tree, selected: seq<Id>, roots: seq<Id>, s: Id) returns (r: Id)
    requires Forest(t) && AllActive(t, selected) && AreRoots(t, selected, roots) && s in selected
    ensures r in roots && ActiveUnder(t, s, r)
    decreases t[s].level
  {
    if !Redundant(t, selected, t[s].parent) {
      r := s;
    } else {
      var p := t[s].parent.value;
      RedundantIff(t, selected, p);
      var above :| above in selected && ActiveUnder(t, p, above);
      ActiveIsDeeper(t, p, above);
      r := RootAbove(t, selected, roots, above);
      ActiveTrans(t, s, above, r);
    }
  }

  lemma {:induction false} ActiveIsDeeper(t: Tree, x: Id, s: Id)
    requires Forest(t) && x in t && ActiveUnder(t, x, s)
    ensures s in t && t[s].level <= t[x].level
    decreases t[x].level
  {
    if x != s {
      ActiveIsDeeper(t, t[x].parent.value, s);
    }
  }

  /** The categories listed for several roots. */
  ghost predicate Covered(t: Tree, roots: seq<Id>, x: Id) {
    exists r | r in roots :: InSubtree(t, r, x)
  }

  /** The roots' subtrees cover exactly the selection's, even across inactive categories in between. */
  lemma RootsCover(t: Tree, selected: seq<Id>, roots: seq<Id>, x: Id)
    requires Forest(t) && AllActive(t, selected) && AreRoots(t, selected, roots)
    ensures Covered(t, roots, x) <==> Covered(t, selected, x)
  {
    forall s ensures InSubtree(t, s, x) <==> x in t && ActiveUnder(t, x, s) {
      SubtreeIffActive(t, s, x);
    }
    if s :| s in selected && InSubtree(t, s, x) {
      var r := RootAbove(t, selected, roots, s);
      ActiveTrans(t, x, s, r);
    }
  }

  /** And no two of them overlap. */
  lemma RootsDisjoint(t: Tree, selected: seq<Id>, roots: seq<Id>, a: Id, b: Id, x: Id)
    requires Forest(t) && AllActive(t, selected) && AreRoots(t, selected, roots)
    requires a in roots && b in roots && InSubtree(t, a, x) && InSubtree(t, b, x)
    ensures a == b
  {
    SubtreeIffActive(t, a, x);
    SubtreeIffActive(t, b, x);
    OneAboveOther(t, x, a, b);
    if a != b {
      var low, high := if ActiveUnder(t, a, b) then a else b, if ActiveUnder(t, a, b) then b else a;
      RedundantIff(t, selected, t[low].parent.value);
    }
  }

  // ---- _normalize_roots ----

  datatype Ref = Ref(category: Id, version: nat)
  datatype RefError = CategoryNotFound | CategoryVersionConflict

  function Checked(t: Tree, versions: map<Id, nat>, ref: Ref): Result<Id, RefError> {
    if !InInventory(t, ref.category) || ref.category !in versions then Err(CategoryNotFound)
    else if versions[ref.category] != ref.version then Err(CategoryVersionConflict)
    else Ok(ref.category)
  }

  /** A reference is good if its category is there, active, live and of the version named. */
  predicate GoodRef(t: Tree, versions: map<Id, nat>, ref: Ref) {
    && ref.category in t && t[ref.category].active && !t[ref.category].deleted
    && ref.category in versions && versions[ref.category] == ref.version
  }

  lemma CheckedIs(t: Tree, versions: map<Id, nat>, ref: Ref)
    requires t.Keys == versions.Keys
    ensures Checked(t, versions, ref).Ok? <==> GoodRef(t, versions, ref)
    ensures Checked(t, versions, ref) == Err(CategoryVersionConflict) <==>
            ref.category in t && t[ref.category].active && !t[ref.category].deleted && versions[ref.category] != ref.version
  {
  }

  predicate AllChecked(t: Tree, versions: map<Id, nat>, refs: seq<Ref>) {
    forall i | 0 <= i < |refs| :: Checked(t, versions, refs[i]).Ok?
  }

  function Selection(refs: seq<Ref>): (r: seq<Id>)
    ensures |r| == |refs|
  {
    seq(|refs|, i requires 0 <= i < |refs| => refs[i].category)
  }

  predicate Distinct(list: seq<Id>) {
    forall i, j | 0 <= i < j < |list| :: list[i] != list[j]
  }

  /** Collect the selection, each category once. */
  method Collect(t: Tree, versions: map<Id, nat>, refs: seq<Ref>) returns (r: Result<seq<Id>, RefError>)
    ensures r.Ok? <==> AllChecked(t, versions, refs)
    ensures r.Err? ==> exists i | 0 <= i < |refs| :: Checked(t, versions, refs[i]) == Err(r.error)
                                                   && forall j | 0 <= j < i :: Checked(t, versions, refs[j]).Ok?
    ensures r.Ok? ==> Distinct(r.value) && forall s :: s in r.value <==> s in Selection(refs)
  {
    var selected: seq<Id> := [];
    for k := 0 to |refs|
      invariant forall i | 0 <= i < k :: Checked(t, versions, refs[i]).Ok? && refs[i].category in selected
      invariant Distinct(selected) && forall s | s in selected :: s in Selection(refs)
    {
      var found := Checked(t, versions, refs[k]);
      if found.Err? {
        return Err(found.error);
      }
      if found.value !in selected {
        assert Selection(refs)[k] == found.value;
        selected := selected + [found.value];
      }
    }
    return Ok(selected);
  }

  /** Walk up the active parents of a selected category. */
  method IsRedundant(t: Tree, selected: seq<Id>, category: Id) returns (redundant: bool)
    requires Forest(t) && category in t
    ensures redundant == Redundant(t, selected, t[category].parent)
  {
    var parent := t[category].parent;
    redundant := false;
    while parent.Some?
      invariant parent.Some? ==> parent.value in t
      invariant Redundant(t, selected, t[category].parent) == Redundant(t, selected, parent)
      decreases if parent.Some? then t[parent.value].level else 0
    {
      if parent.value in selected {
        return true;
      }
      parent := if InInventory(t, parent.value) then t[parent.value].parent else None;
    }
  }

  /** The roots in the order of the selection. */
  method NormalizeRoots(t: Tree, versions: map<Id, nat>, refs: seq<Ref>) returns (r: Result<seq<Id>, RefError>)
    requires Forest(t)
    ensures r.Ok? <==> forall i | 0 <= i < |refs| :: GoodRef(t, versions, refs[i])
    ensures r.Err? ==> exists i | 0 <= i < |refs| :: Checked(t, versions, refs[i]) == Err(r.error)
                                                   && forall j | 0 <= j < i :: GoodRef(t, versions, refs[j])
    ensures r.Ok? ==> Distinct(r.value) && forall root | root in r.value :: root in Selection(refs)
    ensures r.Ok? ==> forall x :: Covered(t, r.value, x) <==> Covered(t, Selection(refs), x)
    ensures r.Ok? ==> forall a, b, x | a in r.value && b in r.value && InSubtree(t, a, x) && InSubtree(t, b, x) :: a == b
  {
    var collected := Collect(t, versions, refs);
    if collected.Err? {
      return Err(collected.error);
    }
    var selected := collected.value;
    assert AllActive(t, selected) by {
      forall s | s in selected ensures InInventory(t, s) {
        var i :| 0 <= i < |refs| && Selection(refs)[i] == s;
        assert Checked(t, versions, refs[i]).Ok?;
      }
    }
    var roots: seq<Id> := [];
    for k := 0 to |selected|
      invariant Distinct(roots)
      invariant forall root :: root in roots <==> root in selected[..k] && root in t && !Redundant(t, selected, t[root].parent)
    {
      assert InInventory(t, selected[k]);
      var redundant := IsRedundant(t, selected, selected[k]);
      assert selected[..k + 1] == selected[..k] + [selected[k]];
      if !redundant {
        roots := roots + [selected[k]];
      }
    }
    assert selected[..|selected|] == selected;
    forall x ensures Covered(t, roots, x) <==> Covered(t, Selection(refs), x) {
      RootsCover(t, selected, roots, x);
      assert Covered(t, selected, x) <==> Covered(t, Selection(refs), x);
    }
    forall a, b, x | a in roots && b in roots && InSubtree(t, a, x) && InSubtree(t, b, x) ensures a == b {
      RootsDisjoint(t, selected, roots, a, b, x);
    }
    return Ok(roots);
  }
}
