/**
 The category forest: every category one level below its parent, to any depth, and no live category
 under a deleted one.  Recursive queries are read as SQL runs them, layer by layer from their start.
 */
module CategoryForest {
  import opened Prelude

  datatype Id = Id(text: string)

  /** A display name, and the same with its case folded. */
  datatype Name = Name(shown: string, folded: string)

  datatype Node = Node(parent: Option<Id>, level: int, key: string, name: Name, active: bool, deleted: bool,
                       chat: bool, selectable: bool, mirror: bool)

  type Tree = map<Id, Node>

  predicate Forest(t: Tree) {
    forall i | i in t ::
      && t[i].level >= 1
      && (t[i].parent.None? ==> t[i].level == 1)
      && (t[i].parent.Some? ==> t[i].parent.value in t && t[i].level == t[t[i].parent.value].level + 1)
  }

  predicate LiveAbove(t: Tree) {
    forall i | i in t ::
      && (t[i].deleted ==> !t[i].active)
      && (t[i].parent.Some? && t[i].parent.value in t && t[t[i].parent.value].deleted ==> t[i].deleted)
  }

  predicate Sound(t: Tree) { Forest(t) && LiveAbove(t) }

  /** A category is in the subtree of another, itself included. */
  predicate Under(t: Tree, x: Id, root: Id)
    requires Forest(t) && x in t
    decreases t[x].level
  {
    x == root || (t[x].parent.Some? && Under(t, t[x].parent.value, root))
  }

  function Subtree(t: Tree, root: Id): set<Id>
    requires Forest(t)
  {
    set i | i in t && Under(t, i, root)
  }

  // ---- recursive queries ----

  /** The rows a recursive query adds in its k-th round. */
  ghost function Layer(t: Tree, start: set<Id>, admit: (Node, Node) -> bool, k: nat): set<Id> {
    if k == 0 then start
    else
      var last := Layer(t, start, admit, k - 1);
      set c | c in t && t[c].parent.Some? && t[c].parent.value in t && t[c].parent.value in last && admit(t[t[c].parent.value], t[c])
  }

  ghost predicate Reached(t: Tree, start: set<Id>, admit: (Node, Node) -> bool, x: Id) {
    exists k: nat :: x in Layer(t, start, admit, k)
  }

  /** The same read upwards: a row of the start, or admitted by a parent that is reached. */
  predicate Climbs(t: Tree, start: set<Id>, admit: (Node, Node) -> bool, x: Id)
    requires Forest(t) && x in t
    decreases t[x].level
  {
    || x in start
    || (t[x].parent.Some? && admit(t[t[x].parent.value], t[x]) && Climbs(t, start, admit, t[x].parent.value))
  }

  lemma {:induction false} LayerClimbs(t: Tree, start: set<Id>, admit: (Node, Node) -> bool, k: nat, x: Id)
    requires Forest(t) && start <= t.Keys && x in Layer(t, start, admit, k)
    ensures x in t && Climbs(t, start, admit, x)
  {
    if k > 0 {
      LayerClimbs(t, start, admit, k - 1, t[x].parent.value);
    }
  }

  lemma {:induction false} ClimbsLayer(t: Tree, start: set<Id>, admit: (Node, Node) -> bool, x: Id) returns (k: nat)
    requires Forest(t) && x in t && Climbs(t, start, admit, x)
    ensures x in Layer(t, start, admit, k)
    decreases t[x].level
  {
    if x in start {
      k := 0;
    } else {
      var j := ClimbsLayer(t, start, admit, t[x].parent.value);
      k := j + 1;
    }
  }

  /** Reading a recursive query downwards and upwards gives the same rows. */
  lemma ReachedIff(t: Tree, start: set<Id>, admit: (Node, Node) -> bool, x: Id)
    requires Forest(t) && start <= t.Keys
    ensures Reached(t, start, admit, x) <==> x in t && Climbs(t, start, admit, x)
  {
    if Reached(t, start, admit, x) {
      var k: nat :| x in Layer(t, start, admit, k);
      LayerClimbs(t, start, admit, k, x);
    }
    if x in t && Climbs(t, start, admit, x) {
      var k := ClimbsLayer(t, start, admit, x);
    }
  }

  /** The query for all descendants. */
  lemma {:induction false} AllAdmittedIsUnder(t: Tree, root: Id, x: Id)
    requires Forest(t) && root in t && x in t
    ensures Climbs(t, {root}, (p, c) => true, x) <==> Under(t, x, root)
    decreases t[x].level
  {
    if x != root && t[x].parent.Some? {
      AllAdmittedIsUnder(t, root, t[x].parent.value);
    }
  }

  /** The query for live descendants finds all that are live: none hides below a deleted one. */
  lemma {:induction false} LiveAdmittedIsUnder(t: Tree, root: Id, x: Id)
    requires Sound(t) && root in t && !t[root].deleted && x in t
    ensures Climbs(t, {root}, (p, c: Node) => !c.deleted, x) <==> Under(t, x, root) && !t[x].deleted
    decreases t[x].level
  {
    if x != root && t[x].parent.Some? {
      LiveAdmittedIsUnder(t, root, t[x].parent.value);
    }
  }

  lemma {:induction false} UnderIsDeeper(t: Tree, x: Id, root: Id)
    requires Forest(t) && x in t && Under(t, x, root)
    ensures root in t && t[root].level <= t[x].level && (t[root].level == t[x].level ==> x == root)
    decreases t[x].level
  {
    if x != root {
      UnderIsDeeper(t, t[x].parent.value, root);
    }
  }

  // ---- operations, as far as they concern the structure ----

  datatype Error =
    | NotFound | VersionConflict | MoveCycle | ParentNotFound | ParentInactive | MirrorParentForbidden | MirrorMoveBlocked
    | NameConflict | CodeConflict | PositionNotFound | PositionInvalid | NumberLimitExceeded | ConfirmationRequired | DeleteBlocked
    | Uncaught  // an exception of the language, which rolls the transaction back like any error

  /** The live categories under one parent. */
  predicate Sibling(t: Tree, parent: Option<Id>, i: Id) {
    i in t && t[i].parent == parent && !t[i].deleted
  }

  /** Names conflict whatever their case. */
  predicate NameTaken(t: Tree, parent: Option<Id>, name: Name, exclude: Option<Id>) {
    exists i | i in t :: Sibling(t, parent, i) && Some(i) != exclude && t[i].name.folded == name.folded
  }

  /** The level for a new child of `parent`. */
  function ChildLevel(t: Tree, parent: Option<Id>): (r: Result<int, Error>)
    ensures r.Ok? ==> parent.Some? ==> parent.value in t && t[parent.value].active && r.value == t[parent.value].level + 1
    ensures r.Ok? && parent.None? ==> r.value == 1
  {
    if parent.None? then Ok(1)
    else if parent.value !in t then Err(ParentNotFound)
    else if !t[parent.value].active then Err(ParentInactive)
    else if t[parent.value].mirror then Err(MirrorParentForbidden)
    else Ok(t[parent.value].level + 1)
  }

  function Created(t: Tree, id: Id, parent: Option<Id>, key: string, name: Name): (r: Result<Tree, Error>)
    requires id !in t
    ensures r.Ok? ==> r.value.Keys == t.Keys + {id} && (forall i | i in t :: r.value[i] == t[i]) && Sibling(r.value, parent, id)
  {
    var level :- ChildLevel(t, parent);
    if NameTaken(t, parent, name, None) then Err(NameConflict)
    else Ok(t[id := Node(parent, level, key, name, true, false, true, level == 1, false)])
  }

  /** What a new category asks of its parent and its siblings. */
  ghost predicate CreateAllowed(t: Tree, parent: Option<Id>, name: Name) {
    && (parent.Some? ==> parent.value in t && t[parent.value].active && !t[parent.value].mirror)
    && (forall i | i in t && !t[i].deleted && t[i].parent == parent :: t[i].name.folded != name.folded)
  }

  /** What the errors of a new category say. */
  ghost predicate CreateRefused(t: Tree, parent: Option<Id>, name: Name, error: Error) {
    match error
    case ParentNotFound => parent.Some? && parent.value !in t
    case ParentInactive => parent.Some? && parent.value in t && !t[parent.value].active
    case MirrorParentForbidden => parent.Some? && parent.value in t && t[parent.value].mirror
    case NameConflict => exists i | i in t && !t[i].deleted && t[i].parent == parent :: t[i].name.folded == name.folded
    case _ => false
  }

  lemma CreatedIff(t: Tree, id: Id, parent: Option<Id>, key: string, name: Name)
    requires Forest(t) && id !in t
    ensures var r := Created(t, id, parent, key, name);
      && (r.Ok? <==> CreateAllowed(t, parent, name))
      && (r.Err? ==> CreateRefused(t, parent, name, r.error))
      && (r.Ok? && parent.None? ==> r.value == t[id := Node(None, 1, key, name, true, false, true, true, false)])
      && (r.Ok? && parent.Some? ==>
            parent.value in t && r.value == t[id := Node(parent, t[parent.value].level + 1, key, name, true, false, true, false, false)])
  {
    assert NameTaken(t, parent, name, None) <==>
           exists i | i in t && !t[i].deleted && t[i].parent == parent :: t[i].name.folded == name.folded;
  }

  /** A new category is a live leaf of the same forest. */
  lemma CreatedKeeps(t: Tree, id: Id, parent: Option<Id>, key: string, name: Name)
    requires Sound(t) && id !in t && Created(t, id, parent, key, name).Ok?
    ensures Sound(Created(t, id, parent, key, name).value)
  {
    var u := Created(t, id, parent, key, name).value;
    forall i | i in u
      ensures u[i].level >= 1 && (u[i].parent.None? ==> u[i].level == 1)
      ensures u[i].parent.Some? ==> u[i].parent.value in u && u[i].level == u[u[i].parent.value].level + 1
      ensures u[i].parent.Some? && u[u[i].parent.value].deleted ==> u[i].deleted
    {
      assert i != id ==> u[i] == t[i];
    }
  }

  /** The checks of a move that concern the structure. */
  function MayMove(t: Tree, cat: Id, target: Option<Id>): (r: Result<int, Error>)
    requires Forest(t) && cat in t
    ensures r.Ok? && target.Some? ==> target.value in t && t[target.value].active && !Under(t, target.value, cat)
    ensures r.Ok? ==> r.value == (if target.Some? then t[target.value].level + 1 else 1)
  {
    if target == Some(cat) then Err(MoveCycle)
    else
      var level :- ChildLevel(t, target);
      if target.Some? && Under(t, target.value, cat) then Err(MoveCycle)
      else if NameTaken(t, target, t[cat].name, Some(cat)) then Err(NameConflict)
      else Ok(level)
  }

  /** The tree once a category hangs under its new parent and its descendants follow. */
  function Moved(t: Tree, cat: Id, target: Option<Id>, level: int): (u: Tree)
    requires Forest(t) && cat in t
    ensures u.Keys == t.Keys
    ensures forall i | i in t :: u[i].parent == (if i == cat then target else t[i].parent) && u[i].deleted == t[i].deleted
  {
    map i | i in t ::
      if i == cat then t[i].(parent := target, level := level)
      else if Under(t, i, cat) then t[i].(level := t[i].level + (level - t[cat].level))
      else t[i]
  }

  lemma MovedNodeOk(t: Tree, cat: Id, target: Option<Id>, i: Id)
    requires Sound(t) && cat in t && MayMove(t, cat, target).Ok? && i in t
    ensures var u := Moved(t, cat, target, MayMove(t, cat, target).value); var n := u[i];
      && n.level >= 1 && (n.parent.None? ==> n.level == 1)
      && (n.parent.Some? ==> n.parent.value in u && n.level == u[n.parent.value].level + 1)
      && (n.parent.Some? && u[n.parent.value].deleted ==> n.deleted) && (n.deleted ==> !n.active)
  {
    if Under(t, i, cat) {
      UnderIsDeeper(t, i, cat);
    }
    if i == cat {
      assert target.Some? ==> target.value != cat && !Under(t, target.value, cat);
    } else if t[i].parent.Some? {
      var p := t[i].parent.value;
      assert p in t && t[i].level == t[p].level + 1;
      assert Under(t, i, cat) <==> Under(t, p, cat);
      assert p == cat ==> Under(t, p, cat);
    }
  }

  lemma MovedKeeps(t: Tree, cat: Id, target: Option<Id>)
    requires Sound(t) && cat in t && MayMove(t, cat, target).Ok?
    ensures Sound(Moved(t, cat, target, MayMove(t, cat, target).value))
  {
    var u := Moved(t, cat, target, MayMove(t, cat, target).value);
    assert Forest(u) by {
      forall i | i in t {
        MovedNodeOk(t, cat, target, i);
      }
    }
    forall i | i in u
      ensures u[i].deleted ==> !u[i].active
      ensures u[i].parent.Some? && u[i].parent.value in u && u[u[i].parent.value].deleted ==> u[i].deleted
    {
      MovedNodeOk(t, cat, target, i);
    }
  }

  /** A move shifts the moved subtree by one constant, leaves the rest alone and keeps the subtree together. */
  lemma {:induction false} MoveShiftsSubtree(t: Tree, cat: Id, target: Option<Id>, x: Id)
    requires Sound(t) && cat in t && MayMove(t, cat, target).Ok? && x in t
    ensures var u := Moved(t, cat, target, MayMove(t, cat, target).value);
      && Sound(u) && x in u && (Under(u, x, cat) <==> Under(t, x, cat))
      && u[x].level - t[x].level == (if Under(t, x, cat) then u[cat].level - t[cat].level else 0)
      && u[x].(parent := None, level := 0) == t[x].(parent := None, level := 0)
    decreases t[x].level
  {
    MovedKeeps(t, cat, target);
    var u := Moved(t, cat, target, MayMove(t, cat, target).value);
    if x != cat && t[x].parent.Some? {
      MoveShiftsSubtree(t, cat, target, t[x].parent.value);
    }
  }

  /** A category and everything live below it, deleted. */
  function Deleted(t: Tree, cat: Id): (r: Tree)
    requires Forest(t) && cat in t
    ensures r.Keys == t.Keys
    ensures forall x | x in t :: if Under(t, x, cat) then r[x].deleted else r[x] == t[x]
    ensures forall x | x in t :: r[x].parent == t[x].parent && (t[x].deleted ==> r[x].deleted)
  {
    map i | i in t ::
      if Under(t, i, cat) && !t[i].deleted then t[i].(active := false, deleted := true, chat := false, selectable := false)
      else t[i]
  }

  lemma DeletedNodeOk(t: Tree, cat: Id, i: Id)
    requires Sound(t) && cat in t && i in t
    ensures var u := Deleted(t, cat); var n := u[i];
      && n.level == t[i].level && n.parent == t[i].parent && (n.deleted ==> !n.active)
      && (n.parent.Some? && u[n.parent.value].deleted ==> n.deleted)
  {
    if t[i].parent.Some? {
      var p := t[i].parent.value;
      assert p in t && (t[p].deleted ==> t[i].deleted);
      assert Under(t, p, cat) ==> Under(t, i, cat);
    }
  }

  /** Deleting leaves no live category under a deleted one. */
  lemma DeletedKeeps(t: Tree, cat: Id)
    requires Sound(t) && cat in t
    ensures Sound(Deleted(t, cat))
  {
    forall i | i in t {
      DeletedNodeOk(t, cat, i);
    }
  }
}
