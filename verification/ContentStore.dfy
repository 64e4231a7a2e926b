/** The content store and its single publication worker at work on all documents. */
module ContentStore {
  import opened Prelude
  import opened ContentLifecycle
  import opened ContentSteps

  type Documents = map<ItemId, Document>

  datatype Reference = Reference(item: ItemId, number: nat)

  /** No two unarchived documents of a category have the same file name. */
  predicate NamesUnique(docs: Documents) {
    forall i, k | i in docs && k in docs && i != k :: Key(docs[i]).Some? ==> Key(docs[i]) != Key(docs[k])
  }

  /** What the database itself keeps: no two rows of the file name index are the same. */
  predicate IndexUnique(docs: Documents) {
    forall i, k | i in docs && k in docs && i != k :: Entry(docs[i]).Some? ==> Entry(docs[i]) != Entry(docs[k])
  }

  /** Every document's column is set. */
  predicate AllEntered(docs: Documents) {
    forall i | i in docs :: docs[i].versions != [] && docs[i].entry == Newest(docs[i]).name
  }

  predicate AllOk(docs: Documents) {
    IndexUnique(docs) && forall i | i in docs :: DocumentOk(docs[i])
  }

  /** A row of the index bears the name, and another document than `item` owns it. */
  predicate EntryTaken(docs: Documents, category: CategoryId, name: string, item: ItemId) {
    exists k | k in docs :: k != item && Entry(docs[k]) == Some((category, name))
  }

  /** What find_content_filename_conflict returns: some namesake, or None when there is none. */
  predicate IsConflict(docs: Documents, category: CategoryId, name: string, exclude: Option<ItemId>, found: Option<ItemId>) {
    match found
    case Some(k) => Some(k) != exclude && k in docs && Key(docs[k]) == Some((category, name))
    case None => forall k | k in docs && Some(k) != exclude :: Key(docs[k]) != Some((category, name))
  }

  /** Nothing is lost, and no head can name an older version than before. */
  predicate Advanced(before: Documents, after: Documents) {
    forall i | i in before :: i in after && |before[i].versions| <= |after[i].versions| && Floor(before[i]) <= Floor(after[i])
  }

  /** The same, file names stay unique if they were, and columns stay set. */
  predicate Steps(before: Documents, after: Documents) {
    && Advanced(before, after)
    && (NamesUnique(before) ==> NamesUnique(after))
    && (AllEntered(before) ==> AllEntered(after))
  }

  /** No job is left in the middle of its work; those still waiting are as they were. */
  predicate NothingRunning(before: Document, after: Document) {
    && |after.jobs| == |before.jobs|
    && forall j | 0 <= j < |after.jobs| ::
         if Active(after.jobs[j].status) then after.jobs[j].status == Pending else before.jobs[j].status != Pending
  }

  /** The documents once the namesake that the caller agreed to replace is archived. */
  function Replaced(docs: Documents, found: Option<ItemId>, replace: Option<Reference>, rights: Rights): Result<Documents, Error>
    requires found.Some? ==> found.value in docs && docs[found.value].versions != []
  {
    if found.None? then Ok(docs)
    else if replace != Some(Reference(found.value, |docs[found.value].versions|)) then Err(FilenameConflict)
    else match Archive(docs[found.value], replace.value.number, rights)
      case Ok(archived) => Ok(docs[found.value := archived])
      case Err(error) => Err(error)
  }

  /** The namesake found, if any, was archived as the caller agreed; `docs` is the same otherwise. */
  predicate Agreed(before: Documents, docs: Documents, found: Option<ItemId>, replace: Option<Reference>) {
    && before.Keys == docs.Keys
    && (found.Some? ==>
          && found.value in docs && replace == Some(Reference(found.value, |before[found.value].versions|))
          && ArchivedFrom(before[found.value], docs[found.value]))
    && (forall k | k in docs && Some(k) != found :: docs[k] == before[k])
  }

  /** The item's newest file name can be normalised and is free in a category. */
  predicate NameFree(docs: Documents, item: ItemId, category: CategoryId)
    requires item in docs && docs[item].versions != []
  {
    Newest(docs[item]).name.Some? && IsConflict(docs, category, Newest(docs[item]).name.value, Some(item), None)
  }

  /** A namesake in the category cannot be replaced: it is not the one agreed to, or must not be archived. */
  predicate CannotReplace(docs: Documents, category: CategoryId, name: string, item: ItemId, replace: Option<Reference>, rights: Rights)
    requires forall k | k in docs :: docs[k].versions != []
  {
    exists k | k in docs :: k != item && Key(docs[k]) == Some((category, name)) && Replaced(docs, Some(k), replace, rights).Err?
  }

  /** Two documents besides `exclude` have the name: the store is no longer sound by file names. */
  predicate Crowded(docs: Documents, category: CategoryId, name: string, exclude: Option<ItemId>) {
    exists k, m | k in docs && m in docs :: k != m && Some(k) != exclude && Some(m) != exclude
      && Key(docs[k]) == Some((category, name)) && Key(docs[m]) == Some((category, name))
  }

  // ---- what a refusal says ----

  /** Another document of the category bears the name. */
  predicate HasNamesake(docs: Documents, category: CategoryId, name: Option<string>, exclude: Option<ItemId>) {
    name.Some? && exists k | k in docs :: Some(k) != exclude && Key(docs[k]) == Some((category, name.value))
  }

  /** The namesake found was not the one to be replaced, or must not be archived. */
  predicate NamesakeRefused(docs: Documents, found: Option<ItemId>, replace: Option<Reference>, rights: Rights, error: Error) {
    && found.Some? && found.value in docs && docs[found.value].versions != []
    && if replace != Some(Reference(found.value, |docs[found.value].versions|)) then error == FilenameConflict
       else ArchiveRefused(docs[found.value], |docs[found.value].versions|, rights, error)
  }

  /** A namesake in the category was in the way, or the index refused the row because of a second one. */
  ghost predicate ReplaceRefused(docs: Documents, category: CategoryId, name: string, item: ItemId, replace: Option<Reference>, rights: Rights,
                                 error: Error)
  {
    || (error == IndexRefused && Crowded(docs, category, name, Some(item)))
    || exists k | k in docs :: k != item && Key(docs[k]) == Some((category, name)) && NamesakeRefused(docs, Some(k), replace, rights, error)
  }

  ghost predicate ReviseRejected(docs: Documents, item: ItemId, expected: nat, name: Option<string>, replace: Option<Reference>, allowed: bool,
                                 rights: Rights, error: Error)
  {
    || (error == Forbidden && !allowed) || (error == InvalidFilename && name.None?) || (error == ItemNotFound && item !in docs)
    || (item in docs && ReviseRefused(docs[item], expected, error))
    || (item in docs && name.Some? && ReplaceRefused(docs, docs[item].category, name.value, item, replace, rights, error))
  }

  ghost predicate RestoreRejected(docs: Documents, item: ItemId, expected: nat, target: Option<CategoryId>, replace: Option<Reference>,
                                  allowed: bool, rights: Rights, active: set<CategoryId>, error: Error)
  {
    if item !in docs || docs[item].versions == [] then error == NotInTrash || (error == Forbidden && !allowed)
    else
      var category, name := if target.Some? then target.value else docs[item].category, Newest(docs[item]).name;
      || (error == NotInTrash && !docs[item].archived) || (error == Forbidden && !allowed)
      || (error == VersionConflict && expected != |docs[item].versions|)
      || (error == CategoryInactive && category !in active) || (error == InvalidFilename && name.None?)
      || (error == ConflictChanged && replace.Some? && !HasNamesake(docs, category, name, Some(item)))
      || (name.Some? && ReplaceRefused(docs, category, name.value, item, replace, rights, error))
  }

  predicate MoveRejected(docs: Documents, item: ItemId, expected: nat, target: CategoryId, allowed: bool, active: set<CategoryId>, error: Error) {
    if item !in docs || docs[item].versions == [] then error == ItemNotFound
    else match error
      case ItemNotFound => docs[item].archived
      case VersionConflict => expected != |docs[item].versions|
      case RequiresRepublication => docs[item].head.Some? || Newest(docs[item]).status != PendingPublication
      case Forbidden => !allowed
      case CategoryInactive => target !in active
      case InvalidFilename => Newest(docs[item]).name.None?
      case FilenameConflict => HasNamesake(docs, target, Newest(docs[item]).name, Some(item))
      case _ => false
  }

  predicate MoveRequestRejected(docs: Documents, item: ItemId, expected: nat, target: CategoryId, allowed: bool, active: set<CategoryId>,
                                error: Error)
  {
    if item !in docs || docs[item].versions == [] then error == ItemNotFound || (error == Forbidden && !allowed)
    else match error
      case Forbidden => !allowed
      case CategoryInactive => target !in active
      case InvalidFilename => Newest(docs[item]).name.None?
      case FilenameConflict => HasNamesake(docs, target, Newest(docs[item]).name, Some(item))
      case _ => MoveRefused(docs[item], expected, target, error)
  }

  predicate MayMove(docs: Documents, item: ItemId, expected: nat, target: CategoryId, activeCategories: set<CategoryId>)
    requires item in docs && docs[item].versions != []
  {
    var d := docs[item];
    && !d.archived && expected == |d.versions| && d.head.None? && Newest(d).status == PendingPublication
    && target in activeCategories && (d.category == target || NameFree(docs, item, target))
  }

  predicate MayRestore(d: Document, expected: nat, target: Option<CategoryId>, activeCategories: set<CategoryId>)
    requires d.versions != []
  {
    d.archived && expected == |d.versions| && Destination(d, target) in activeCategories && Newest(d).name.Some?
  }

  function Destination(d: Document, target: Option<CategoryId>): CategoryId {
    if target.Some? then target.value else d.category
  }

  /** Two documents are namesakes: both unarchived, in one category, with one newest file name. */
  lemma NamesakesIff(a: Document, b: Document)
    ensures Key(a).Some? && Key(a) == Key(b) <==>
              && !a.archived && !b.archived && a.category == b.category && a.versions != [] && b.versions != []
              && a.versions[|a.versions| - 1].name.Some? && a.versions[|a.versions| - 1].name == b.versions[|b.versions| - 1].name
  {
  }

  /** File names are unique: no two documents are namesakes. */
  lemma NamesUniqueIff(docs: Documents)
    ensures NamesUnique(docs) <==>
            forall i, k | i in docs && k in docs && i != k && !docs[i].archived && !docs[k].archived
                          && docs[i].category == docs[k].category && docs[i].versions != [] && docs[k].versions != []
                          && docs[i].versions[|docs[i].versions| - 1].name.Some? ::
              docs[i].versions[|docs[i].versions| - 1].name != docs[k].versions[|docs[k].versions| - 1].name
  {
  }

  /** What the index keeps apart: the columns of unarchived documents of one category. */
  lemma IndexUniqueIff(docs: Documents)
    ensures IndexUnique(docs) <==>
            forall i, k | i in docs && k in docs && i != k && !docs[i].archived && !docs[k].archived
                          && docs[i].category == docs[k].category && docs[i].entry.Some? ::
              docs[i].entry != docs[k].entry
  {
  }

  lemma OneDocumentKeeps(docs: Documents, i: ItemId, d: Document)
    requires AllOk(docs) && DocumentOk(d)
    requires Entry(d).Some? ==> !EntryTaken(docs, Entry(d).value.0, Entry(d).value.1, i)
    requires i in docs ==> |docs[i].versions| <= |d.versions| && Floor(docs[i]) <= Floor(d)
    ensures AllOk(docs[i := d]) && Advanced(docs, docs[i := d])
  {
  }

  lemma OneNameKeeps(docs: Documents, i: ItemId, d: Document)
    requires NamesUnique(docs) && (Key(d).Some? ==> IsConflict(docs, Key(d).value.0, Key(d).value.1, Some(i), None))
    ensures NamesUnique(docs[i := d])
  {
  }

  lemma OneEntryKeeps(docs: Documents, i: ItemId, d: Document)
    requires AllEntered(docs) && d.versions != [] && d.entry == Newest(d).name
    ensures AllEntered(docs[i := d])
  {
  }

  /** A document whose newest name, now in its column, no other document has. */
  lemma NamedKeeps(docs: Documents, i: ItemId, d: Document)
    requires AllOk(docs) && DocumentOk(d) && d.entry == Newest(d).name
    requires Key(d).Some? ==> IsConflict(docs, Key(d).value.0, Key(d).value.1, Some(i), None)
    requires i in docs ==> |docs[i].versions| <= |d.versions| && Floor(docs[i]) <= Floor(d)
    ensures AllOk(docs[i := d]) && Steps(docs, docs[i := d])
  {
    assert AllOk(docs[i := d]) && Advanced(docs, docs[i := d]) by {
      if Entry(d).Some? {
        NoNameNoEntry(docs, Entry(d).value.0, Entry(d).value.1, i);
      }
      OneDocumentKeeps(docs, i, d);
    }
    if NamesUnique(docs) {
      OneNameKeeps(docs, i, d);
    }
    if AllEntered(docs) {
      OneEntryKeeps(docs, i, d);
    }
  }

  /** The document is filed as it was, or leaves the index. */
  predicate FiledOrGone(a: Document, b: Document) {
    SameFiling(a, b) || (a.archived && a.entry == b.entry && a.versions == b.versions)
  }

  lemma FiledKeys(a: Document, b: Document)
    requires FiledOrGone(a, b)
    ensures (Key(a) == Key(b) || Key(a).None?) && (Entry(a) == Entry(b) || Entry(a).None?)
    ensures b.versions != [] && b.entry == Newest(b).name ==> a.versions != [] && a.entry == Newest(a).name
  {
  }

  lemma FiledKeeps(before: Documents, after: Documents)
    requires AllOk(before) && after.Keys == before.Keys
    requires forall i | i in before :: DocumentOk(after[i]) && FiledOrGone(after[i], before[i]) && Floor(before[i]) <= Floor(after[i])
    ensures AllOk(after) && Steps(before, after)
  {
    forall i | i in before
      ensures (Key(after[i]) == Key(before[i]) || Key(after[i]).None?) && (Entry(after[i]) == Entry(before[i]) || Entry(after[i]).None?)
      ensures before[i].entry == Newest(before[i]).name ==> after[i].entry == Newest(after[i]).name
      ensures |before[i].versions| == |after[i].versions|
    {
      FiledKeys(after[i], before[i]);
    }
    NothingNewFiled(before, after);
  }

  lemma NothingNewFiled(before: Documents, after: Documents)
    requires after.Keys == before.Keys
    requires forall i | i in before :: Key(after[i]) == Key(before[i]) || Key(after[i]).None?
    requires forall i | i in before :: Entry(after[i]) == Entry(before[i]) || Entry(after[i]).None?
    ensures NamesUnique(before) ==> NamesUnique(after)
    ensures IndexUnique(before) ==> IndexUnique(after)
  {
  }

  /** Sound file names leave no two namesakes. */
  lemma NotCrowded(docs: Documents, category: CategoryId, name: string, exclude: Option<ItemId>)
    requires NamesUnique(docs)
    ensures !Crowded(docs, category, name, exclude)
  {
  }

  /** A name that no document has is in no row of the index. */
  lemma NoNameNoEntry(docs: Documents, category: CategoryId, name: string, item: ItemId)
    requires AllOk(docs) && IsConflict(docs, category, name, Some(item), None)
    ensures !EntryTaken(docs, category, name, item)
  {
  }

  /** Once every column is set, the index keeps file names unique. */
  lemma EnteredIsUnique(docs: Documents)
    requires AllOk(docs) && AllEntered(docs)
    ensures NamesUnique(docs)
  {
    forall i, k | i in docs && k in docs && i != k && Key(docs[i]).Some? ensures Key(docs[i]) != Key(docs[k]) {
      assert Entry(docs[i]) == Key(docs[i]) && Entry(docs[k]) == Key(docs[k]);
    }
  }

  lemma MoveStays(docs: Documents, item: ItemId)
    requires AllOk(docs) && item in docs && docs[item].move.Some?
    ensures docs[item].category in {docs[item].move.value.source, docs[item].move.value.target} && docs[item].versions != []
  {
  }

  lemma HasVersions(docs: Documents, item: ItemId)
    requires AllOk(docs) && item in docs
    ensures docs[item].versions != [] && DocumentOk(docs[item])
  {
  }

  /** Why a row that replaces its namesake is refused. */
  lemma ReplaceRefusal(docs: Documents, category: CategoryId, name: string, item: ItemId, found: Option<ItemId>, replace: Option<Reference>,
                       rights: Rights, error: Error)
    requires IsConflict(docs, category, name, Some(item), found)
    requires (error == IndexRefused && Crowded(docs, category, name, Some(item))) || NamesakeRefused(docs, found, replace, rights, error)
    ensures ReplaceRefused(docs, category, name, item, replace, rights, error)
  {
    hide Crowded, ArchiveRefused;
  }

  lemma ArchivedIsIdle(d: Document)
    requires DocumentOk(d) && d.archived
    ensures !IsActive(d) && !HasActiveJob(d, |d.versions|)
  {
  }

  lemma RevisedKeeps(docs: Documents, item: ItemId, expected: nat, name: Option<string>)
    requires AllOk(docs) && item in docs && docs[item].versions != [] && MayRevise(docs[item], expected).Ok?
    ensures DocumentOk(Revised(docs[item], name)) && !IsActive(docs[item]) && !docs[item].archived
    ensures Floor(docs[item]) <= Floor(Revised(docs[item], name))
  {
  }

  lemma NoStep(docs: Documents)
    ensures Steps(docs, docs)
  {
  }

  lemma StepsTwice(a: Documents, b: Documents, c: Documents)
    requires Advanced(a, b) && Advanced(b, c)
    ensures Advanced(a, c)
    ensures Steps(a, b) && Steps(b, c) ==> Steps(a, c)
  {
  }

  /** Archiving the namesake found frees the name if there was only one. */
  lemma ReplacedFreesName(docs: Documents, category: CategoryId, name: string, exclude: Option<ItemId>,
                          found: Option<ItemId>, replace: Option<Reference>, rights: Rights)
    requires AllOk(docs) && IsConflict(docs, category, name, exclude, found) && !Crowded(docs, category, name, exclude)
    requires Replaced(docs, found, replace, rights).Ok?
    ensures IsConflict(Replaced(docs, found, replace, rights).value, category, name, exclude, None)
  {
  }

  lemma CommittedKeeps(docs: Documents, item: ItemId)
    requires AllOk(docs) && item in docs && docs[item].move.Some? && NameFree(docs, item, docs[item].move.value.target)
    ensures var after := docs[item := docs[item].(category := docs[item].move.value.target)];
      AllOk(after) && Steps(docs, after)
  {
    var d := docs[item].(category := docs[item].move.value.target);
    assert AllOk(docs[item := d]) && Advanced(docs, docs[item := d]) by {
      NoNameNoEntry(docs, d.category, Newest(d).name.value, item);
      OneDocumentKeeps(docs, item, d);
    }
    if NamesUnique(docs) {
      OneNameKeeps(docs, item, d);
    }
    if AllEntered(docs) {
      OneEntryKeeps(docs, item, d);
    }
  }

  /** The index has the returning document's name in the source category. */
  predicate ReturnRefused(docs: Documents, item: ItemId)
    requires item in docs && docs[item].move.Some?
  {
    docs[item].entry.Some? && EntryTaken(docs, docs[item].move.value.source, docs[item].entry.value, item)
  }

  /** The search for namesakes would find one in the source category. */
  predicate ReturnMeetsNamesake(docs: Documents, item: ItemId)
    requires item in docs && docs[item].move.Some? && docs[item].versions != []
  {
    var name := Newest(docs[item]).name;
    name.Some? && !IsConflict(docs, docs[item].move.value.source, name.value, Some(item), None)
  }

  /** Exactly when bringing a document back keeps file names unique. */
  lemma ReturnKeepsIff(docs: Documents, item: ItemId)
    requires AllOk(docs) && NamesUnique(docs) && item in docs && docs[item].move.Some?
    ensures var returned := docs[item := docs[item].(category := docs[item].move.value.source)];
      NamesUnique(returned) <==> docs[item].category == docs[item].move.value.source || !ReturnMeetsNamesake(docs, item)
  {
    var d := docs[item].(category := docs[item].move.value.source);
    var returned := docs[item := d];
    if docs[item].category == docs[item].move.value.source {
      assert returned == docs;
    } else if ReturnMeetsNamesake(docs, item) {
      var k :| k in docs && k != item && Key(docs[k]) == Some((docs[item].move.value.source, Newest(docs[item]).name.value));
      assert Key(returned[k]) == Key(returned[item]);
    } else {
      OneNameKeeps(docs, item, d);
    }
  }

  lemma ReturnedKeeps(docs: Documents, item: ItemId)
    requires AllOk(docs) && item in docs && docs[item].move.Some?
    requires docs[item].category == docs[item].move.value.source || !ReturnRefused(docs, item)
    ensures var after := docs[item := docs[item].(category := docs[item].move.value.source)];
      && AllOk(after) && Advanced(docs, after) && (AllEntered(docs) ==> AllEntered(after))
      && (NamesUnique(docs) ==> (NamesUnique(after) <==> docs[item].category == docs[item].move.value.source
                                                         || !ReturnMeetsNamesake(docs, item)))
  {
    var d := docs[item].(category := docs[item].move.value.source);
    if docs[item].category == docs[item].move.value.source {
      assert docs[item := d] == docs;
    } else {
      OneDocumentKeeps(docs, item, d);
    }
    if AllEntered(docs) {
      OneEntryKeeps(docs, item, d);
    }
    if NamesUnique(docs) {
      ReturnKeepsIff(docs, item);
    }
  }

  /** The index refuses the return exactly where a namesake is and both columns are set. */
  lemma RefusedIff(docs: Documents, item: ItemId)
    requires AllOk(docs) && item in docs && docs[item].move.Some?
    ensures ReturnRefused(docs, item) <==>
              exists k | k in docs && k != item :: docs[item].entry.Some? && docs[k].entry.Some?
                && Key(docs[k]) == Some((docs[item].move.value.source, docs[item].entry.value))
  {
  }

  /** The documents once the namesake is archived and the item's row, which takes its name, is written. */
  function Rewritten(docs: Documents, item: ItemId, d: Document, found: Option<ItemId>, replace: Option<Reference>, rights: Rights)
    : Result<Documents, Error>
    requires (found.Some? ==> found.value in docs && docs[found.value].versions != []) && d.entry.Some?
  {
    var replaced := Replaced(docs, found, replace, rights);
    if replaced.Err? then replaced
    else if EntryTaken(replaced.value, d.category, d.entry.value, item) then Err(IndexRefused)
    else Ok(replaced.value[item := d])
  }

  lemma ReplacedKeeps(docs: Documents, found: Option<ItemId>, replace: Option<Reference>, rights: Rights)
    requires AllOk(docs) && (found.Some? ==> found.value in docs) && Replaced(docs, found, replace, rights).Ok?
    ensures AllOk(Replaced(docs, found, replace, rights).value) && Steps(docs, Replaced(docs, found, replace, rights).value)
  {
    FiledKeeps(docs, Replaced(docs, found, replace, rights).value);
  }

  lemma ReplacedLeaves(docs: Documents, category: CategoryId, name: string, item: ItemId,
                       found: Option<ItemId>, replace: Option<Reference>, rights: Rights)
    requires AllOk(docs) && item in docs && IsConflict(docs, category, name, Some(item), found)
    ensures docs[item].versions != [] && found != Some(item) && (found.Some? ==> found.value in docs && docs[found.value].versions != [])
    ensures Replaced(docs, found, replace, rights).Ok? ==>
              item in Replaced(docs, found, replace, rights).value && Replaced(docs, found, replace, rights).value[item] == docs[item]
  {
  }

  lemma ReplacingSteps(before: Documents, between: Documents, i: ItemId, d: Document)
    requires Steps(before, between) && Advanced(between, between[i := d]) && d.versions != [] && d.entry.Some? && d.entry == Newest(d).name
    requires Key(d) == Some((d.category, d.entry.value))
    requires !Crowded(before, d.category, d.entry.value, Some(i)) ==> IsConflict(between, d.category, d.entry.value, Some(i), None)
    ensures Steps(before, between[i := d])
  {
    if NamesUnique(before) {
      NotCrowded(before, d.category, d.entry.value, Some(i));
      OneNameKeeps(between, i, d);
    }
    if AllEntered(between) {
      OneEntryKeeps(between, i, d);
    }
    StepsTwice(before, between, between[i := d]);
  }

  /** Rewriting keeps everything; the index refuses it only where two namesakes already were. */
  lemma RewrittenKeeps(docs: Documents, item: ItemId, d: Document, found: Option<ItemId>, replace: Option<Reference>, rights: Rights)
    requires AllOk(docs) && item in docs && DocumentOk(d) && d.entry.Some? && d.entry == Newest(d).name && !d.archived
    requires |docs[item].versions| <= |d.versions| && Floor(docs[item]) <= Floor(d)
    requires IsConflict(docs, d.category, d.entry.value, Some(item), found)
    ensures var r := Rewritten(docs, item, d, found, replace, rights);
      && (r.Ok? ==> AllOk(r.value) && Steps(docs, r.value))
      && (r.Err? ==> Replaced(docs, found, replace, rights).Err? || Crowded(docs, d.category, d.entry.value, Some(item)))
  {
    hide AllOk, Steps, DocumentOk, IsConflict, Crowded, EntryTaken, Advanced;
    ReplacedLeaves(docs, d.category, d.entry.value, item, found, replace, rights);
    if Replaced(docs, found, replace, rights).Ok? {
      var between := Replaced(docs, found, replace, rights).value;
      ReplacedKeeps(docs, found, replace, rights);
      if !Crowded(docs, d.category, d.entry.value, Some(item)) {
        ReplacedFreesName(docs, d.category, d.entry.value, Some(item), found, replace, rights);
        NoNameNoEntry(between, d.category, d.entry.value, item);
      }
      if !EntryTaken(between, d.category, d.entry.value, item) {
        OneDocumentKeeps(between, item, d);
        ReplacingSteps(docs, between, item, d);
      }
    }
  }

  /** Over any stretch of a run, the version number an item's head names does not go down. */
  lemma HeadNumbersNeverFall(before: Documents, after: Documents, i: ItemId)
    requires Advanced(before, after) && i in before && before[i].head.Some? && after[i].head.Some?
    ensures before[i].head.value.number <= after[i].head.value.number
  {
  }

  class Store {
    var docs: Documents
    var activeCategories: set<CategoryId>
    /** The index job being run, by item and place. */
    var worker: Option<(ItemId, nat)>

    predicate Inv()
      reads this
    {
      && AllOk(docs)
      && (worker.Some? ==> worker.value.0 in docs && IsActive(docs[worker.value.0])
                           && worker.value.1 == |docs[worker.value.0].jobs| - 1)
    }

    constructor ()
      ensures Inv() && docs == map[] && worker == None
    {
      docs, activeCategories, worker := map[], {}, None;
    }

    /** Search the category for an unarchived document of the same folded name. */
    method FindConflict(category: CategoryId, name: string, exclude: Option<ItemId>) returns (found: Option<ItemId>)
      ensures IsConflict(docs, category, name, exclude, found)
      ensures found.None? <==> IsConflict(docs, category, name, exclude, None)
    {
      var rows := docs.Keys;
      while rows != {}
        invariant rows <= docs.Keys
        invariant forall k | k in docs && k !in rows && Some(k) != exclude :: Key(docs[k]) != Some((category, name))
        decreases rows
      {
        var k :| k in rows;
        if Some(k) != exclude && Key(docs[k]) == Some((category, name)) {
          return Some(k);
        }
        rows := rows - {k};
      }
      return None;
    }

    /** The database's own check: does another row of the index bear the name? */
    method IsTaken(category: CategoryId, name: string, item: ItemId) returns (taken: bool)
      ensures taken <==> EntryTaken(docs, category, name, item)
    {
      var rows := docs.Keys;
      while rows != {}
        invariant rows <= docs.Keys
        invariant forall k | k in docs && k !in rows && k != item :: Entry(docs[k]) != Some((category, name))
        decreases rows
      {
        var k :| k in rows;
        if k != item && Entry(docs[k]) == Some((category, name)) {
          return true;
        }
        rows := rows - {k};
      }
      return false;
    }

    /** Rewrite the rows of one document. */
    method Put(item: ItemId, d: Document)
      requires Inv() && DocumentOk(d)
      requires Entry(d).Some? ==> !EntryTaken(docs, Entry(d).value.0, Entry(d).value.1, item)
      requires item in docs ==> |docs[item].versions| <= |d.versions| && Floor(docs[item]) <= Floor(d)
      requires worker.Some? && worker.value.0 == item ==> |d.jobs| == |docs[item].jobs| && IsActive(d)
      modifies this`docs
      ensures Inv() && Advanced(old(docs), docs) && docs == old(docs)[item := d]
    {
      OneDocumentKeeps(docs, item, d);
      docs := docs[item := d];
    }

    /** The same for a document whose newest name, once in the column, is free. */
    method PutNamed(item: ItemId, d: Document)
      requires Inv() && DocumentOk(d) && d.entry == Newest(d).name
      requires Key(d).Some? ==> IsConflict(docs, Key(d).value.0, Key(d).value.1, Some(item), None)
      requires item in docs ==> |docs[item].versions| <= |d.versions| && Floor(docs[item]) <= Floor(d)
      requires worker.Some? && worker.value.0 == item ==> |d.jobs| == |docs[item].jobs| && IsActive(d)
      modifies this`docs
      ensures Inv() && Steps(old(docs), docs) && docs == old(docs)[item := d]
    {
      hide AllOk, Steps, IsConflict, DocumentOk;
      NamedKeeps(docs, item, d);
      docs := docs[item := d];
    }

    /** The same, where the document is filed as it was or leaves the index. */
    method Touch(item: ItemId, d: Document)
      requires Inv() && item in docs && DocumentOk(d)
      requires FiledOrGone(d, docs[item])
      requires |docs[item].versions| <= |d.versions| && Floor(docs[item]) <= Floor(d)
      requires worker.Some? && worker.value.0 == item ==> |d.jobs| == |docs[item].jobs| && IsActive(d)
      modifies this`docs
      ensures Inv() && Steps(old(docs), docs) && docs == old(docs)[item := d]
    {
      FiledKeeps(docs, docs[item := d]);
      docs := docs[item := d];
    }

    // ---- request handlers ----

    method Upload(item: ItemId, category: CategoryId, name: Option<string>) returns (r: Result<(), Error>)
      requires Inv() && item !in docs
      modifies this`docs
      ensures Inv() && Steps(old(docs), docs)
      ensures r.Ok? <==> category in activeCategories && name.Some? && IsConflict(old(docs), category, name.value, None, None)
      ensures r.Ok? ==> item in docs && docs[item] == Document(category, false, name, [Version(PendingPublication, name)], [], [], None, None)
      ensures docs == if r.Ok? then old(docs)[item := Uploaded(category, name)] else old(docs)
      ensures r.Err? ==>
                || (r.error == CategoryInactive && category !in activeCategories) || (r.error == InvalidFilename && name.None?)
                || (r.error == FilenameConflict && HasNamesake(old(docs), category, name, None))
    {
      if category !in activeCategories {
        return Err(CategoryInactive);
      }
      if name.None? {
        return Err(InvalidFilename);
      }
      var found := FindConflict(category, name.value, None);
      if found.Some? {
        return Err(FilenameConflict);
      }
      PutNamed(item, Uploaded(category, name));
      return Ok(());
    }

    method ArchiveItem(item: ItemId, expected: nat, rights: Rights) returns (r: Result<(), Error>)
      requires Inv()
      modifies this`docs
      ensures Inv() && Steps(old(docs), docs)
      ensures r.Ok? <==> item in old(docs) && MayArchive(old(docs)[item], expected, rights)
      ensures r.Ok? ==> item in docs && ArchivedFrom(old(docs)[item], docs[item])
      ensures r.Err? ==> if item !in old(docs) then r.error == ItemNotFound
                         else old(docs)[item].versions != [] && ArchiveRefused(old(docs)[item], expected, rights, r.error)
      ensures r.Ok? <==> item in old(docs) && Archive(old(docs)[item], expected, rights).Ok?
      ensures docs == if r.Ok? then old(docs)[item := Archive(old(docs)[item], expected, rights).value] else old(docs)
    {
      if item !in docs {
        return Err(ItemNotFound);
      }
      ArchiveOkIff(docs[item], expected, rights);
      if Archive(docs[item], expected, rights).Err? {
        ArchiveRefusal(docs[item], expected, rights);
      }
      var archived :- Archive(docs[item], expected, rights);
      ArchiveIs(docs[item], expected, rights);
      Touch(item, archived);
      return Ok(());
    }

    /** Archive the namesake found, if it is the one the caller agreed to replace. */
    method ReplaceConflict(found: Option<ItemId>, replace: Option<Reference>, rights: Rights) returns (r: Result<(), Error>)
      requires Inv() && (found.Some? ==> found.value in docs)
      modifies this`docs
      ensures Inv() && Steps(old(docs), docs)
      ensures r.Ok? <==> Replaced(old(docs), found, replace, rights).Ok?
      ensures docs == if r.Ok? then Replaced(old(docs), found, replace, rights).value else old(docs)
      ensures r.Ok? ==> Agreed(old(docs), docs, found, replace)
      ensures r.Err? ==> NamesakeRefused(old(docs), found, replace, rights, r.error)
    {
      if found.None? {
        return Ok(());
      }
      if replace != Some(Reference(found.value, |docs[found.value].versions|)) {
        return Err(FilenameConflict);
      }
      r := ArchiveItem(found.value, replace.value.number, rights);
    }

    /** Archive the namesake and write the document, in one transaction: if the index refuses the row, nothing stays. */
    method PutReplacing(item: ItemId, d: Document, found: Option<ItemId>, replace: Option<Reference>, rights: Rights)
      returns (r: Result<Option<ItemId>, Error>)
      requires Inv() && item in docs && DocumentOk(d) && d.entry.Some? && d.entry == Newest(d).name && !d.archived
      requires |docs[item].versions| <= |d.versions| && Floor(docs[item]) <= Floor(d)
      requires worker.Some? ==> worker.value.0 != item
      requires IsConflict(docs, d.category, d.entry.value, Some(item), found)
      modifies this`docs
      ensures Inv() && Steps(old(docs), docs)
      ensures r.Ok? <==> Rewritten(old(docs), item, d, found, replace, rights).Ok?
      ensures r.Ok? ==> r.value == found
      ensures r.Err? ==> ReplaceRefused(old(docs), d.category, d.entry.value, item, replace, rights, r.error)
      ensures docs == if r.Ok? then Rewritten(old(docs), item, d, found, replace, rights).value else old(docs)
      ensures r.Ok? ==> item in old(docs) && item in docs && Agreed(old(docs), docs[item := old(docs)[item]], r.value, replace)
    {
      hide AllOk, Steps, NamesakeRefused, Archive, Crowded, ReplaceRefused;
      var before := docs;
      RewrittenKeeps(docs, item, d, found, replace, rights);
      var replaced := ReplaceConflict(found, replace, rights);
      if replaced.Err? {
        ReplaceRefusal(before, d.category, d.entry.value, item, found, replace, rights, replaced.error);
        return Err(replaced.error);
      }
      var taken := IsTaken(d.category, d.entry.value, item);
      if taken {
        docs := before;
        NoStep(docs);
        ReplaceRefusal(docs, d.category, d.entry.value, item, found, replace, rights, IndexRefused);
        return Err(IndexRefused);
      }
      docs := docs[item := d];
      return Ok(found);
    }

    method Revise(item: ItemId, expected: nat, name: Option<string>, replace: Option<Reference>, allowed: bool, rights: Rights)
      returns (r: Result<Option<ItemId>, Error>)
      requires Inv()
      modifies this`docs
      ensures Inv() && Steps(old(docs), docs)
      ensures r.Ok? ==> item in old(docs) && MayRevise(old(docs)[item], expected).Ok? && name.Some?
      ensures r.Ok? ==> allowed && !old(docs)[item].archived && expected == |old(docs)[item].versions| && Idle(old(docs)[item])
      ensures r.Ok? ==> item in docs && RevisedFrom(old(docs)[item], docs[item], name)
      ensures r.Ok? ==> IsConflict(old(docs), old(docs)[item].category, name.value, Some(item), r.value)
      ensures r.Ok? ==> Replaced(old(docs), r.value, replace, rights).Ok?
      ensures r.Err? && allowed && name.Some? && item in old(docs) && !old(docs)[item].archived && expected == |old(docs)[item].versions|
              && Idle(old(docs)[item]) ==>
                CannotReplace(old(docs), old(docs)[item].category, name.value, item, replace, rights)
                || Crowded(old(docs), old(docs)[item].category, name.value, Some(item))
      ensures docs == if r.Ok? then Replaced(old(docs), r.value, replace, rights).value[item := Revised(old(docs)[item], name)] else old(docs)
      ensures r.Err? ==> ReviseRejected(old(docs), item, expected, name, replace, allowed, rights, r.error)
      ensures r.Ok? ==> item in old(docs) && item in docs && Agreed(old(docs), docs[item := old(docs)[item]], r.value, replace)
    {
      hide AllOk, Steps, DocumentOk, IsConflict;
      NoStep(docs);
      if !allowed {
        return Err(Forbidden);
      }
      if name.None? {
        return Err(InvalidFilename);
      }
      if item !in docs {
        return Err(ItemNotFound);
      }
      HasVersions(docs, item);
      ReviseOkIff(docs[item], expected);
      ReviseIs(docs[item], name);
      if MayRevise(docs[item], expected).Err? {
        ReviseRefusal(docs[item], expected);
      }
      var _ :- MayRevise(docs[item], expected);
      RevisedKeeps(docs, item, expected, name);
      var found := FindConflict(docs[item].category, name.value, Some(item));
      RewrittenKeeps(docs, item, Revised(docs[item], name), found, replace, rights);
      r := PutReplacing(item, Revised(docs[item], name), found, replace, rights);
    }

    /** The second half of restoring: free the name in the category, then bring the document back there. */
    method RestoreInto(item: ItemId, category: CategoryId, name: string, replace: Option<Reference>, rights: Rights)
      returns (r: Result<Option<ItemId>, Error>)
      requires Inv() && item in docs && docs[item].archived && Newest(docs[item]).name == Some(name)
      modifies this`docs
      ensures Inv() && Steps(old(docs), docs)
      ensures r.Ok? ==> item in docs && RestoredFrom(old(docs)[item], docs[item], category)
      ensures r.Ok? ==> IsConflict(old(docs), category, name, Some(item), r.value) && (r.value.None? ==> replace.None?)
      ensures r.Ok? ==> Replaced(old(docs), r.value, replace, rights).Ok?
      ensures r.Err? ==> CannotReplace(old(docs), category, name, item, replace, rights)
                         || (replace.Some? && IsConflict(old(docs), category, name, Some(item), None))
                         || Crowded(old(docs), category, name, Some(item))
      ensures r.Err? ==> (r.error == ConflictChanged && replace.Some? && !HasNamesake(old(docs), category, Some(name), Some(item)))
                         || ReplaceRefused(old(docs), category, name, item, replace, rights, r.error)
      ensures docs == if r.Ok? then Replaced(old(docs), r.value, replace, rights).value[item := Restored(old(docs)[item], category)] else old(docs)
      ensures r.Ok? ==> item in old(docs) && item in docs && Agreed(old(docs), docs[item := old(docs)[item]], r.value, replace)
    {
      hide AllOk, Steps, DocumentOk, IsConflict;
      HasVersions(docs, item);
      ArchivedIsIdle(docs[item]);
      NoStep(docs);
      RestoreIs(docs[item], category);
      var restored := Restored(docs[item], category);
      var found := FindConflict(category, name, Some(item));
      if found.None? && replace.Some? {
        return Err(ConflictChanged);
      }
      if HasActiveJob(docs[item], |docs[item].versions|) {
        return Err(InProgress);
      }
      RewrittenKeeps(docs, item, restored, found, replace, rights);
      r := PutReplacing(item, restored, found, replace, rights);
    }

    method Restore(item: ItemId, expected: nat, target: Option<CategoryId>, replace: Option<Reference>, allowed: bool, rights: Rights)
      returns (r: Result<Option<ItemId>, Error>)
      requires Inv()
      modifies this`docs
      ensures Inv() && Steps(old(docs), docs)
      ensures r.Ok? ==> allowed && item in old(docs) && old(docs)[item].archived && expected == |old(docs)[item].versions|
      ensures r.Ok? ==> item in docs && docs[item].category in activeCategories
      ensures r.Ok? ==> docs[item].category == if target.Some? then target.value else old(docs)[item].category
      ensures r.Ok? ==> item in docs && RestoredFrom(old(docs)[item], docs[item], Destination(old(docs)[item], target))
      ensures r.Ok? ==> Newest(old(docs)[item]).name.Some?
      ensures r.Ok? ==> IsConflict(old(docs), Destination(old(docs)[item], target), Newest(old(docs)[item]).name.value, Some(item), r.value)
      ensures r.Ok? ==> Replaced(old(docs), r.value, replace, rights).Ok? && (r.value.None? ==> replace.None?)
      ensures r.Err? && item in old(docs) && MayRestore(old(docs)[item], expected, target, activeCategories) && allowed ==>
                CannotReplace(old(docs), Destination(old(docs)[item], target), Newest(old(docs)[item]).name.value, item, replace, rights)
                || (replace.Some? && IsConflict(old(docs), Destination(old(docs)[item], target), Newest(old(docs)[item]).name.value, Some(item), None))
                || Crowded(old(docs), Destination(old(docs)[item], target), Newest(old(docs)[item]).name.value, Some(item))
      ensures docs == if r.Ok? then Replaced(old(docs), r.value, replace, rights).value[
                                      item := Restored(old(docs)[item], Destination(old(docs)[item], target))]
                      else old(docs)
      ensures r.Err? ==> RestoreRejected(old(docs), item, expected, target, replace, allowed, rights, activeCategories, r.error)
      ensures r.Ok? ==> item in old(docs) && item in docs && Agreed(old(docs), docs[item := old(docs)[item]], r.value, replace)
    {
      hide AllOk, Steps, DocumentOk, IsConflict, CannotReplace, Crowded, ReplaceRefused, Agreed, RestoredFrom, HasNamesake, Replaced;
      NoStep(docs);
      if item in docs {
        HasVersions(docs, item);
      }
      if item !in docs || !docs[item].archived {
        return Err(NotInTrash);
      }
      if !allowed {
        return Err(Forbidden);
      }
      if expected != |docs[item].versions| {
        return Err(VersionConflict);
      }
      var category := Destination(docs[item], target);
      if category !in activeCategories {
        return Err(CategoryInactive);
      }
      if Newest(docs[item]).name.None? {
        return Err(InvalidFilename);
      }
      r := RestoreInto(item, category, Newest(docs[item]).name.value, replace, rights);
    }

    /** Only drafts that were never published move this way. */
    method MoveItem(item: ItemId, expected: nat, target: CategoryId, allowed: bool) returns (r: Result<(), Error>)
      requires Inv()
      modifies this`docs
      ensures Inv() && Steps(old(docs), docs)
      ensures r.Ok? <==> item in old(docs) && MayMove(old(docs), item, expected, target, activeCategories) && allowed
      ensures docs == if r.Ok? then old(docs)[item := Moved(old(docs)[item], target)] else old(docs)
      ensures r.Ok? && old(docs)[item].category != target ==>
                docs == old(docs)[item := old(docs)[item].(category := target, entry := Newest(old(docs)[item]).name)]
      ensures r.Err? ==> MoveRejected(old(docs), item, expected, target, allowed, activeCategories, r.error)
    {
      if item !in docs || docs[item].archived {
        return Err(ItemNotFound);
      }
      if expected != |docs[item].versions| {
        return Err(VersionConflict);
      }
      if docs[item].head.Some? || Newest(docs[item]).status != PendingPublication {
        return Err(RequiresRepublication);
      }
      if !allowed {
        return Err(Forbidden);
      }
      if target !in activeCategories {
        return Err(CategoryInactive);
      }
      if docs[item].category == target {
        return Ok(());
      }
      if Newest(docs[item]).name.None? {
        return Err(InvalidFilename);
      }
      var found := FindConflict(target, Newest(docs[item]).name.value, Some(item));
      if found.Some? {
        return Err(FilenameConflict);
      }
      PutNamed(item, Moved(docs[item], target));
      return Ok(());
    }

    /** Its callers ask for unarchived items only; it does not look itself. */
    method Request(item: ItemId, number: nat) returns (r: Result<(), Error>)
      requires Inv() && (item in docs ==> !docs[item].archived)
      modifies this`docs
      ensures Inv() && Steps(old(docs), docs)
      ensures r.Ok? <==> item in old(docs) && number == |old(docs)[item].versions|
                         && Newest(old(docs)[item]).status in {PendingPublication, PublicationFailed}
      ensures r.Ok? ==> item in docs && RequestedFrom(old(docs)[item], docs[item], number)
      ensures r.Ok? <==> item in old(docs) && RequestPublication(old(docs)[item], number).Ok?
      ensures docs == if r.Ok? then old(docs)[item := RequestPublication(old(docs)[item], number).value] else old(docs)
      ensures r.Err? ==> r.error == NotPublishable
    {
      if item !in docs {
        return Err(NotPublishable);
      }
      RequestOkIff(docs[item], number);
      var requested :- RequestPublication(docs[item], number);
      RequestIs(docs[item], number);
      Touch(item, requested);
      return Ok(());
    }

    // ---- the publication worker ----

    /** The head of run_content_publication: a job that is no longer runnable is skipped. */
    method StartJob(item: ItemId, j: nat, officeDisabled: bool) returns (started: bool)
      requires Inv() && worker.None?
      modifies this`docs, this`worker
      ensures Inv() && Steps(old(docs), docs)
      ensures started <==> item in old(docs) && Runnable(old(docs)[item], j) && !officeDisabled
      ensures docs == if item !in old(docs) || !Runnable(old(docs)[item], j) then old(docs)
                      else old(docs)[item := if officeDisabled then Fail(old(docs)[item], j) else Start(old(docs)[item], j)]
      ensures worker == if started then Some((item, j)) else None
      ensures item in old(docs) && Runnable(old(docs)[item], j) ==>
                item in docs && if started then StartedFrom(old(docs)[item], docs[item], j) else FailedFrom(old(docs)[item], docs[item], j)
    {
      if item !in docs || !Runnable(docs[item], j) {
        return false;
      }
      assert j == |docs[item].jobs| - 1;
      StartIs(docs[item], j);
      FailIs(docs[item], j);
      var d := if officeDisabled then Fail(docs[item], j) else Start(docs[item], j);
      assert DocumentOk(d) && SameFiling(d, docs[item]) && (!officeDisabled ==> IsActive(d) && |d.jobs| == |docs[item].jobs|);
      Touch(item, d);
      worker := if officeDisabled then None else Some((item, j));
      return !officeDisabled;
    }

    method ReportStage(stage: JobStatus)
      requires Inv() && worker.Some? && stage in {Parsing, Chunking, Summarizing, Embedding}
      modifies this`docs
      ensures Inv() && Steps(old(docs), docs)
      ensures UpdateStage(old(docs)[worker.value.0], worker.value.1, stage).Ok?
      ensures docs == old(docs)[worker.value.0 := UpdateStage(old(docs)[worker.value.0], worker.value.1, stage).value]
      ensures var (item, j) := worker.value; item in docs && StagedFrom(old(docs)[item], docs[item], j, stage)
    {
      var (item, j) := worker.value;
      StageIs(docs[item], j, stage);
      var next := UpdateStage(docs[item], j, stage);
      Touch(item, next.value);
    }

    /** The job ends: its version becomes the head, or the job, its publication and version are failed. */
    method EndJob(published: bool)
      requires Inv() && worker.Some?
      modifies this`docs, this`worker
      ensures Inv() && Steps(old(docs), docs) && worker == None
      ensures var (item, j) := old(worker).value;
        && Promote(old(docs)[item], j).Ok?
        && docs == old(docs)[item := if published then Promote(old(docs)[item], j).value else Fail(old(docs)[item], j)]
      ensures var (item, j) := old(worker).value;
        item in docs && if published then PromotedFrom(old(docs)[item], docs[item], j) else FailedFrom(old(docs)[item], docs[item], j)
    {
      var (item, j) := worker.value;
      PromoteIs(docs[item], j);
      FailIs(docs[item], j);
      worker := None;
      if published {
        var promoted := Promote(docs[item], j);
        Touch(item, promoted.value);
      } else {
        Touch(item, Fail(docs[item], j));
      }
    }

    // ---- reclassification, as far as it concerns the item row ----

    method RequestMove(item: ItemId, expected: nat, target: CategoryId, allowed: bool) returns (r: Result<(), Error>)
      requires Inv()
      modifies this`docs
      ensures Inv() && Steps(old(docs), docs)
      ensures r.Ok? <==> item in old(docs) && !old(docs)[item].archived && old(docs)[item].head.Some?
                         && old(docs)[item].head.value.number == |old(docs)[item].versions| == expected
                         && old(docs)[item].category != target && Idle(old(docs)[item]) && allowed
                         && target in activeCategories && NameFree(old(docs), item, target)
      ensures r.Ok? <==> item in old(docs) && BeginMove(old(docs)[item], expected, target).Ok? && allowed
                         && target in activeCategories && NameFree(old(docs), item, target)
      ensures r.Ok? ==> item in docs && docs[item] == old(docs)[item].(move := Some(Move(old(docs)[item].category, target)))
      ensures docs == if r.Ok? then old(docs)[item := BeginMove(old(docs)[item], expected, target).value] else old(docs)
      ensures r.Err? ==> MoveRequestRejected(old(docs), item, expected, target, allowed, activeCategories, r.error)
    {
      hide AllOk, Steps, IsConflict, DocumentOk;
      NoStep(docs);
      if !allowed {
        return Err(Forbidden);
      }
      if item !in docs {
        return Err(ItemNotFound);
      }
      HasVersions(docs, item);
      MoveOkIff(docs[item], expected, target);
      if BeginMove(docs[item], expected, target).Err? {
        MoveRefusal(docs[item], expected, target);
      }
      var moving :- BeginMove(docs[item], expected, target);
      if target !in activeCategories {
        return Err(CategoryInactive);
      }
      if Newest(docs[item]).name.None? {
        return Err(InvalidFilename);
      }
      var found := FindConflict(target, Newest(docs[item]).name.value, Some(item));
      if found.Some? {
        return Err(FilenameConflict);
      }
      Touch(item, moving);
      return Ok(());
    }

    method CommitMove(item: ItemId) returns (r: Result<(), Error>)
      requires Inv() && item in docs && docs[item].move.Some?
      modifies this`docs
      ensures Inv() && Steps(old(docs), docs)
      ensures r.Ok? <==> old(docs)[item].category == old(docs)[item].move.value.source
                         && old(docs)[item].move.value.target in activeCategories
                         && NameFree(old(docs), item, old(docs)[item].move.value.target)
      ensures docs == if r.Ok? then old(docs)[item := old(docs)[item].(category := old(docs)[item].move.value.target)] else old(docs)
    {
      hide AllOk, Steps, IsConflict;
      MoveStays(docs, item);
      NoStep(docs);
      var move := docs[item].move.value;
      if docs[item].category != move.source {
        return Err(VersionConflict);
      }
      if move.target !in activeCategories {
        return Err(CategoryInactive);
      }
      if Newest(docs[item]).name.None? {
        return Err(InvalidFilename);
      }
      var found := FindConflict(move.target, Newest(docs[item]).name.value, Some(item));
      if found.Some? {
        return Err(FilenameConflict);
      }
      CommittedKeeps(docs, item);
      docs := docs[item := docs[item].(category := move.target)];
      return Ok(());
    }

    /**
     The way back in a rollback has no check of its own; only the unique index can refuse it, and it
     sees only columns that are set.
     */
    method UndoMove(item: ItemId) returns (r: Result<(), Error>)
      requires Inv() && item in docs && docs[item].move.Some?
      modifies this`docs
      ensures Inv() && Advanced(old(docs), docs) && (AllEntered(old(docs)) ==> AllEntered(docs))
      ensures r.Ok? <==> old(docs)[item].category != old(docs)[item].move.value.target || !ReturnRefused(old(docs), item)
      ensures docs == if r.Ok? then old(docs)[item := old(docs)[item].(category := old(docs)[item].move.value.source)] else old(docs)
      ensures NamesUnique(old(docs)) ==>
                (NamesUnique(docs) <==> old(docs)[item].category == old(docs)[item].move.value.source
                                        || ReturnRefused(old(docs), item) || !ReturnMeetsNamesake(old(docs), item))
    {
      hide AllOk, Advanced, AllEntered, NamesUnique;
      MoveStays(docs, item);
      var move := docs[item].move.value;
      if docs[item].category == move.target && docs[item].entry.Some? {
        var taken := IsTaken(move.source, docs[item].entry.value, item);
        if taken {
          NoStep(docs);
          return Err(IndexRefused);
        }
      }
      ReturnedKeeps(docs, item);
      docs := docs[item := docs[item].(category := move.source)];
      return Ok(());
    }

    method EndMove(item: ItemId)
      requires Inv() && item in docs
      modifies this`docs
      ensures Inv() && Steps(old(docs), docs)
      ensures docs == old(docs)[item := old(docs)[item].(move := None)]
    {
      Touch(item, docs[item].(move := None));
    }

    // ---- boot ----

    method BootDocument(before: Document) returns (d: Document)
      ensures d == Booted(before, |before.jobs|)
    {
      d := before;
      for j := 0 to |before.jobs|
        invariant d == Booted(before, j)
      {
        if Active(before.jobs[j].status) && before.jobs[j].status != Pending {
          d := Fail(d, j);
        }
      }
    }

    method BootDocuments(before: Documents) returns (after: Documents)
      ensures after == AllBooted(before)
    {
      after := before;
      var rows := before.Keys;
      while rows != {}
        invariant rows <= before.Keys == after.Keys
        invariant forall i | i in rows :: after[i] == before[i]
        invariant forall i | i in before && i !in rows :: after[i] == AllBooted(before)[i]
        decreases rows
      {
        var i :| i in rows;
        var d := BootDocument(before[i]);
        after := after[i := d];
        rows := rows - {i};
      }
    }

    /** `recover_content_publications_on_boot`, in one transaction. */
    method BootRecover()
      requires Inv()
      modifies this`docs, this`worker
      ensures Inv() && Steps(old(docs), docs) && worker == None
      ensures docs == AllBooted(old(docs))
      ensures forall i | i in docs :: NothingRunning(old(docs)[i], docs[i]) && BootedFrom(old(docs)[i], docs[i])
    {
      hide AllOk, Steps;
      BootKeeps(docs);
      worker := None;
      docs := BootDocuments(docs);
    }
  }

  function AllBooted(docs: Documents): Documents {
    map i | i in docs :: Booted(docs[i], |docs[i].jobs|)
  }

  lemma BootKeeps(docs: Documents)
    requires AllOk(docs)
    ensures AllOk(AllBooted(docs)) && Steps(docs, AllBooted(docs))
    ensures forall i | i in docs :: NothingRunning(docs[i], AllBooted(docs)[i]) && BootedFrom(docs[i], AllBooted(docs)[i])
  {
    FiledKeeps(docs, AllBooted(docs));
    forall i | i in docs ensures NothingRunning(docs[i], AllBooted(docs)[i]) && BootedFrom(docs[i], AllBooted(docs)[i]) {
      BootStopsAll(docs[i]);
      BootIs(docs[i]);
    }
  }

  lemma BootStopsAll(d: Document)
    requires DocumentOk(d)
    ensures NothingRunning(d, Booted(d, |d.jobs|))
  {
  }

  // ---- whole runs ----

  datatype Command =
    | DoUpload(item: ItemId, category: CategoryId, name: Option<string>)
    | DoArchive(item: ItemId, expected: nat, rights: Rights)
    | DoRevise(item: ItemId, expected: nat, name: Option<string>, replace: Option<Reference>, allowed: bool, rights: Rights)
    | DoRestore(item: ItemId, expected: nat, elsewhere: Option<CategoryId>, replace: Option<Reference>, allowed: bool, rights: Rights)
    | DoMove(item: ItemId, expected: nat, target: CategoryId, allowed: bool)
    | DoRequest(item: ItemId, number: nat)
    | DoStart(item: ItemId, j: nat, officeDisabled: bool)
    | DoStage(stage: JobStatus)
    | DoEnd(published: bool)
    | DoReclassify(item: ItemId, expected: nat, target: CategoryId, allowed: bool)
    | DoCommitMove(item: ItemId)
    | DoUndoMove(item: ItemId)
    | DoEndMove(item: ItemId)
    | SetActive(category: CategoryId, active: bool)
    | WorkerDies
    | Boot

  method Handle(store: Store, c: Command)
    requires store.Inv()
    modifies store
    ensures store.Inv() && Advanced(old(store.docs), store.docs)
    ensures AllEntered(old(store.docs)) ==> AllEntered(store.docs)
    ensures NamesUnique(old(store.docs)) && !c.DoUndoMove? ==> NamesUnique(store.docs)
  {
    match c
    case DoUpload(item, category, name) =>
      if item !in store.docs { var _ := store.Upload(item, category, name); }
    case DoArchive(item, expected, rights) => var _ := store.ArchiveItem(item, expected, rights);
    case DoRevise(item, expected, name, replace, allowed, rights) =>
      var _ := store.Revise(item, expected, name, replace, allowed, rights);
    case DoRestore(item, expected, elsewhere, replace, allowed, rights) =>
      var _ := store.Restore(item, expected, elsewhere, replace, allowed, rights);
    case DoMove(item, expected, target, allowed) => var _ := store.MoveItem(item, expected, target, allowed);
    case DoRequest(item, number) =>
      if item in store.docs && !store.docs[item].archived { var _ := store.Request(item, number); }
    case SetActive(category, active) =>
      store.activeCategories := if active then store.activeCategories + {category} else store.activeCategories - {category};
    case _ => HandleWork(store, c);
  }

  /** The commands of the worker, of the reclassification saga and of the process itself. */
  method HandleWork(store: Store, c: Command)
    requires store.Inv()
    modifies store
    ensures store.Inv() && Advanced(old(store.docs), store.docs)
    ensures AllEntered(old(store.docs)) ==> AllEntered(store.docs)
    ensures NamesUnique(old(store.docs)) && !c.DoUndoMove? ==> NamesUnique(store.docs)
  {
    match c
    case DoStart(item, j, officeDisabled) =>
      if store.worker.None? { var _ := store.StartJob(item, j, officeDisabled); }
    case DoStage(stage) =>
      if store.worker.Some? && stage in {Parsing, Chunking, Summarizing, Embedding} { store.ReportStage(stage); }
    case DoEnd(published) =>
      if store.worker.Some? { store.EndJob(published); }
    case DoReclassify(item, expected, target, allowed) => var _ := store.RequestMove(item, expected, target, allowed);
    case DoCommitMove(item) =>
      if item in store.docs && store.docs[item].move.Some? { var _ := store.CommitMove(item); }
    case DoUndoMove(item) =>
      if item in store.docs && store.docs[item].move.Some? { var _ := store.UndoMove(item); }
    case DoEndMove(item) =>
      if item in store.docs { store.EndMove(item); }
    case WorkerDies => store.worker := None;
    case Boot => store.BootRecover();
    case _ =>
  }

  /**
   Any run of any commands: every document stays sound, the file name index keeps its rows apart,
   and no head ever names an older version than it could before.  Once every column is set, no two
   unarchived documents of a category ever share a file name; until then only a rollback's return
   can make two do so.
   */
  method Drive(store: Store, commands: seq<Command>)
    requires store.Inv()
    modifies store
    ensures AllOk(store.docs) && Advanced(old(store.docs), store.docs)
    ensures AllEntered(old(store.docs)) ==> AllEntered(store.docs) && NamesUnique(store.docs)
    ensures NamesUnique(old(store.docs)) && (forall i | 0 <= i < |commands| :: !commands[i].DoUndoMove?) ==> NamesUnique(store.docs)
  {
    for i := 0 to |commands|
      invariant store.Inv() && Advanced(old(store.docs), store.docs)
      invariant AllEntered(old(store.docs)) ==> AllEntered(store.docs)
      invariant NamesUnique(old(store.docs)) && (forall k | 0 <= k < i :: !commands[k].DoUndoMove?) ==> NamesUnique(store.docs)
    {
      ghost var between := store.docs;
      Handle(store, commands[i]);
      StepsTwice(old(store.docs), between, store.docs);
    }
    if AllEntered(store.docs) {
      EnteredIsUnique(store.docs);
    }
  }

  /** A published document whose column was never set, before and after it was moved. */
  function Legacy(name: string, category: CategoryId, move: Option<Move>): Document {
    Document(category, false, None, [Version(Published, Some(name))], [Publication(1, Live)], [], Some(Head(1, 0)), move)
  }

  /** The document in its new category, and a namesake uploaded where it was. */
  function BesideNamesake(name: string): Documents {
    map[0 := Legacy(name, 2, Some(Move(1, 2))), 1 := Uploaded(1, Some(name))]
  }

  lemma BesideNamesakeIsSound(name: string)
    ensures AllOk(BesideNamesake(name)) && NamesUnique(BesideNamesake(name))
  {
    var docs := BesideNamesake(name);
    assert DocumentOk(docs[0]) && DocumentOk(docs[1]);
    assert Entry(docs[0]) == None && Key(docs[0]) == Some((2, name));
    assert Key(docs[1]) == Entry(docs[1]) == Some((1, name));
  }

  /**
   A document older than the column was moved, a namesake was uploaded where it was, and the
   rollback brings it back beside that, unrefused: two documents of one category with one name.
   */
  lemma ReturnBesideNamesake(name: string)
    ensures BeginMove(Legacy(name, 1, None), 1, 2) == Ok(Legacy(name, 1, Some(Move(1, 2))))
    ensures var docs := BesideNamesake(name);
      && AllOk(docs) && NamesUnique(docs) && !ReturnRefused(docs, 0)
      && !NamesUnique(docs[0 := Legacy(name, 1, Some(Move(1, 2)))])
  {
    hide AllOk, NamesUnique, DocumentOk, IsConflict;
    BesideNamesakeIsSound(name);
    NamesakeIsMet(name);
    ReturnKeepsIff(BesideNamesake(name), 0);
  }

  lemma NamesakeIsMet(name: string)
    ensures ReturnMeetsNamesake(BesideNamesake(name), 0)
  {
    assert Key(BesideNamesake(name)[1]) == Some((1, name));
  }
}
