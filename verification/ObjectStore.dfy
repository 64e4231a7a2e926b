/**
 Shared content objects.  Versions, their previews and their preview history refer to objects by
 hash; a purge drops the objects nobody else refers to, with their files.
 */
module ObjectStore {
  import opened Prelude

  type ItemId = nat
  type VersionId = nat
  type Sha = nat

  /** A version with the rows that go with it: its current preview and every preview it ever had. */
  datatype Version = Version(item: ItemId, blob: Sha, preview: Option<Sha>, history: seq<Sha>)
  type Versions = map<VersionId, Version>

  function Shas(v: Version): set<Sha> {
    var shown := if v.preview.Some? then {v.blob, v.preview.value} else {v.blob};
    shown + set i | 0 <= i < |v.history| :: v.history[i]
  }

  /** Some row of some version refers to the object. */
  predicate Referenced(versions: Versions, s: Sha) {
    exists v | v in versions :: s in Shas(versions[v])
  }

  /** Every reference resolves, and every object row is referred to. */
  ghost predicate Exact(versions: Versions, objects: set<Sha>) {
    forall s :: s in objects <==> Referenced(versions, s)
  }

  /** A hash is that of the bytes of a version, of its preview or of a preview it had. */
  predicate RefersTo(v: Version, s: Sha) {
    v.blob == s || v.preview == Some(s) || exists i | 0 <= i < |v.history| :: v.history[i] == s
  }

  /** References are exact: the object of every row is there, and every object has a row. */
  lemma ExactIff(versions: Versions, objects: set<Sha>)
    ensures Exact(versions, objects) <==>
              && (forall v | v in versions :: versions[v].blob in objects && (versions[v].preview.Some? ==> versions[v].preview.value in objects)
                                              && forall i | 0 <= i < |versions[v].history| :: versions[v].history[i] in objects)
              && (forall s | s in objects :: exists v | v in versions :: RefersTo(versions[v], s))
  {
    forall v, s | v in versions ensures s in Shas(versions[v]) <==> RefersTo(versions[v], s) {
    }
    if Exact(versions, objects) {
      forall v, s | v in versions && RefersTo(versions[v], s) ensures s in objects {
        assert s in Shas(versions[v]);
        assert Referenced(versions, s);
      }
      forall v | v in versions ensures versions[v].blob in objects && (versions[v].preview.Some? ==> versions[v].preview.value in objects) {
        assert RefersTo(versions[v], versions[v].blob);
      }
      forall v, i | v in versions && 0 <= i < |versions[v].history| ensures versions[v].history[i] in objects {
        assert RefersTo(versions[v], versions[v].history[i]);
      }
    }
  }

  /** The objects that lose their last reference with an item: its own, and nobody else's. */
  lemma LastReferencesIff(versions: Versions, item: ItemId, dropped: set<Sha>)
    ensures LastReferences(versions, item, dropped) <==>
            forall s :: s in dropped <==> && (exists v | v in versions :: versions[v].item == item && RefersTo(versions[v], s))
                                          && (forall v | v in versions && versions[v].item != item :: !RefersTo(versions[v], s))
  {
    forall v, s | v in versions ensures s in Shas(versions[v]) <==> RefersTo(versions[v], s) {
    }
    var rest := Without(versions, item);
    forall s ensures Referenced(versions, s) && !Referenced(rest, s) <==>
                     && (exists v | v in versions :: versions[v].item == item && RefersTo(versions[v], s))
                     && (forall v | v in versions && versions[v].item != item :: !RefersTo(versions[v], s))
    {
      OnlyOwnHashes(versions, item, s);
      forall w | w in versions && versions[w].item != item && s in Shas(versions[w]) ensures Referenced(rest, s) {
        assert w in rest && rest[w] == versions[w];
      }
    }
  }

  /** A preview ever shown is in the history of its version. */
  predicate PreviewsKept(versions: Versions) {
    forall v | v in versions :: versions[v].preview.Some? ==> versions[v].preview.value in versions[v].history
  }

  function Without(versions: Versions, item: ItemId): Versions {
    map v | v in versions && versions[v].item != item :: versions[v]
  }

  /** The hashes that an item's rows refer to. */
  function HashesOf(versions: Versions, item: ItemId): set<Sha> {
    set v, s | v in versions && versions[v].item == item && s in Shas(versions[v]) :: s
  }

  /** The objects whose last reference goes with an item. */
  ghost predicate LastReferences(versions: Versions, item: ItemId, dropped: set<Sha>) {
    forall s :: s in dropped <==> Referenced(versions, s) && !Referenced(Without(versions, item), s)
  }

  lemma OnlyOwnHashes(versions: Versions, item: ItemId, s: Sha)
    ensures Referenced(versions, s) <==> Referenced(Without(versions, item), s) || s in HashesOf(versions, item)
  {
    var rest := Without(versions, item);
    if Referenced(versions, s) {
      var v :| v in versions && s in Shas(versions[v]);
      assert versions[v].item != item ==> v in rest && rest[v] == versions[v];
    }
    if v :| v in rest && s in Shas(rest[v]) {
      assert v in versions && versions[v] == rest[v];
    }
  }

  lemma PreviewAdds(v: Version, s: Sha)
    requires v.preview.Some? ==> v.preview.value in v.history
    ensures Shas(v.(preview := Some(s), history := v.history + [s])) == Shas(v) + {s}
  {
    var row := v.(preview := Some(s), history := v.history + [s]);
    forall x ensures x in Shas(row) <==> x in Shas(v) + {s} {
      assert forall i | 0 <= i < |v.history| :: row.history[i] == v.history[i];
      assert row.history[|v.history|] == s;
    }
  }

  lemma ChangeKeeps(versions: Versions, objects: set<Sha>, v: VersionId, row: Version, s: Sha)
    requires Exact(versions, objects) && s in Shas(row) && Shas(row) <= (if v in versions then Shas(versions[v]) + {s} else objects + {s})
    requires v in versions ==> Shas(versions[v]) <= Shas(row)
    ensures Exact(versions[v := row], objects + {s})
  {
    var next := versions[v := row];
    forall x ensures x in objects + {s} <==> Referenced(next, x) {
      if x in objects {
        var w :| w in versions && x in Shas(versions[w]);
        assert w in next && x in Shas(next[w]);
      }
      if x == s {
        assert v in next && s in Shas(next[v]);
      }
      if Referenced(next, x) {
        var w :| w in next && x in Shas(next[w]);
        if w != v || x != s {
          assert w != v ==> w in versions && x in Shas(versions[w]);
          assert w == v && v in versions && x in Shas(versions[v]) ==> Referenced(versions, x);
        }
      }
    }
  }

  datatype Fault = Fine | IndexFails | DatabaseFails | UnlinkFails
  datatype Purge = Purge(item: ItemId, ready: bool, fault: Fault)
  datatype Outcome = Purged | Blocked | Failed
  datatype Verdict = AllSucceeded | AllFailed | Partial

  class Store {
    var versions: Versions
    /** The rows of the object table, and the files they name. */
    var objects: set<Sha>
    var files: set<Sha>

    ghost predicate Valid()
      reads this
    {
      Exact(versions, objects) && PreviewsKept(versions) && objects <= files
    }

    constructor ()
      ensures Valid() && versions == map[] && objects == {} && files == {}
    {
      versions, objects, files := map[], {}, {};
      new;
      assert forall s :: !Referenced(versions, s);
    }

    /** The bytes are stored before the transaction; the object row is inserted unless it exists. */
    method Register(v: VersionId, item: ItemId, sha: Sha, commits: bool)
      requires Valid() && v !in versions
      modifies this
      ensures Valid() && files == old(files) + {sha}
      ensures versions == if commits then old(versions)[v := Version(item, sha, None, [])] else old(versions)
      ensures objects == if commits then old(objects) + {sha} else old(objects)
    {
      files := files + {sha};
      if commits {
        ChangeKeeps(versions, objects, v, Version(item, sha, None, []), sha);
        objects := objects + {sha};
        versions := versions[v := Version(item, sha, None, [])];
      }
    }

    /** A revision without new bytes shares the object of the version before it. */
    method Rename(v: VersionId, previous: VersionId)
      requires Valid() && v !in versions && previous in versions
      modifies this
      ensures Valid() && objects == old(objects) && files == old(files)
      ensures versions == old(versions)[v := Version(old(versions)[previous].item, old(versions)[previous].blob, None, [])]
    {
      var row := Version(versions[previous].item, versions[previous].blob, None, []);
      assert Referenced(versions, row.blob);
      ChangeKeeps(versions, objects, v, row, row.blob);
      assert objects + {row.blob} == objects;
      versions := versions[v := row];
    }

    /** A new preview replaces the current one; the history keeps both. */
    method AssociatePreview(v: VersionId, sha: Sha, commits: bool)
      requires Valid() && v in versions
      modifies this
      ensures Valid() && files == old(files) + {sha}
      ensures objects == if commits then old(objects) + {sha} else old(objects)
      ensures versions == if commits then old(versions)[v := old(versions)[v].(preview := Some(sha), history := old(versions)[v].history + [sha])]
                          else old(versions)
    {
      files := files + {sha};
      if commits {
        var row := versions[v].(preview := Some(sha), history := versions[v].history + [sha]);
        PreviewAdds(versions[v], sha);
        ChangeKeeps(versions, objects, v, row, sha);
        objects := objects + {sha};
        versions := versions[v := row];
      }
    }

    /** `_delete_app_records`: the item's rows go, and with them the objects nobody else refers to. */
    method DeleteAppRecords(item: ItemId) returns (dropped: set<Sha>)
      requires Valid()
      modifies this`versions, this`objects
      ensures Valid() && versions == Without(old(versions), item)
      ensures LastReferences(old(versions), item, dropped)
      ensures objects == old(objects) - dropped && dropped <= old(objects)
    {
      var hashes := HashesOf(versions, item);
      versions := Without(versions, item);
      dropped := {};
      var rest := hashes;
      while rest != {}
        invariant versions == Without(old(versions), item)
        invariant rest <= hashes && dropped <= hashes && objects == old(objects) - dropped
        invariant forall s :: s in dropped <==> s in hashes && s !in rest && !Referenced(versions, s)
        decreases rest
      {
        var s :| s in rest;
        rest := rest - {s};
        if !Referenced(versions, s) && s in objects {
          objects := objects - {s};
          dropped := dropped + {s};
        } else if !Referenced(versions, s) {
          OnlyOwnHashes(old(versions), item, s);
        }
      }
      forall s ensures Referenced(old(versions), s) <==> Referenced(versions, s) || s in hashes {
        OnlyOwnHashes(old(versions), item, s);
      }
    }

    /** One item of a purge.  A failing unlink leaves files behind, but no row without a file. */
    method PurgeOne(p: Purge) returns (o: Outcome)
      requires Valid()
      modifies this
      ensures Valid()
      ensures o == (if !p.ready then Blocked else if p.fault == Fine then Purged else Failed)
      ensures versions == if p.ready && p.fault in {Fine, UnlinkFails} then Without(old(versions), p.item) else old(versions)
      ensures p.fault != UnlinkFails ==> files == old(files) - (old(objects) - objects)
    {
      if !p.ready {
        return Blocked;
      }
      if p.fault == IndexFails || p.fault == DatabaseFails {
        return Failed;
      }
      var dropped := DeleteAppRecords(p.item);
      if p.fault == UnlinkFails {
        return Failed;
      }
      files := files - dropped;
      return Purged;
    }

    /** The loop of `purge_items`, with its counters and verdict. */
    method PurgeItems(batch: seq<Purge>) returns (succeeded: nat, failed: nat, verdict: Verdict)
      requires Valid()
      modifies this
      ensures Valid() && versions == Remaining(old(versions), batch)
      ensures succeeded + failed == |batch|
      ensures succeeded == Count(batch) && (verdict == AllSucceeded <==> failed == 0) && (verdict == AllFailed <==> failed > 0 && succeeded == 0)
    {
      succeeded, failed := 0, 0;
      for i := 0 to |batch|
        invariant Valid() && versions == Remaining(old(versions), batch[..i])
        invariant succeeded + failed == i && succeeded == Count(batch[..i])
      {
        assert batch[..i + 1][..i] == batch[..i];
        var o := PurgeOne(batch[i]);
        if o == Purged {
          succeeded := succeeded + 1;
        } else {
          failed := failed + 1;
        }
      }
      assert batch[..|batch|] == batch;
      verdict := if failed == 0 then AllSucceeded else if succeeded == 0 then AllFailed else Partial;
    }
  }

  /** The versions left by a batch: those of items that were not deleted, whatever became of their files. */
  function Remaining(versions: Versions, batch: seq<Purge>): Versions {
    if batch == [] then versions
    else
      var p, rest := batch[|batch| - 1], Remaining(versions, batch[..|batch| - 1]);
      if p.ready && p.fault in {Fine, UnlinkFails} then Without(rest, p.item) else rest
  }

  function Count(batch: seq<Purge>): nat {
    if batch == [] then 0
    else Count(batch[..|batch| - 1]) + if batch[|batch| - 1].ready && batch[|batch| - 1].fault == Fine then 1 else 0
  }

  /** The item of a version left was not deleted, and all other versions are left as they were. */
  lemma {:induction false} RemainingIs(versions: Versions, batch: seq<Purge>)
    ensures var left := Remaining(versions, batch);
      && (forall v | v in left :: v in versions && left[v] == versions[v])
      && forall v | v in versions :: v in left <==>
           !exists i | 0 <= i < |batch| :: batch[i].ready && batch[i].fault in {Fine, UnlinkFails} && batch[i].item == versions[v].item
  {
    if batch != [] {
      var n := |batch| - 1;
      RemainingIs(versions, batch[..n]);
      assert forall i | 0 <= i < n :: batch[..n][i] == batch[i];
    }
  }
}
