/**
 Documents as the transactions of the content store and the publication worker rewrite them.
 The rows that reference one item (versions, publications, index jobs, head, active
 reclassification) are kept together; a failed transaction returns an error and changes nothing.
 */
module ContentLifecycle {
  import opened Prelude

  type ItemId = nat
  type CategoryId = nat

  datatype Lifecycle = PendingPublication | Publishing | Published | PublicationFailed | Superseded
  datatype PublicationStatus = Requested | Indexing | Live | Broken | Withdrawn
  datatype JobStatus = Pending | Parsing | Chunking | Summarizing | Embedding | Done | Failed

  /** `name` is the case-folded file name, None for a legacy name that cannot be normalised. */
  datatype Version = Version(status: Lifecycle, name: Option<string>)
  datatype Publication = Publication(number: nat, status: PublicationStatus)
  datatype IndexJob = IndexJob(publication: nat, number: nat, status: JobStatus)
  datatype Head = Head(number: nat, publication: nat)
  datatype Move = Move(source: CategoryId, target: CategoryId)

  /**
   Versions are in the order of their numbers 1, 2, ..., the newest last; publications and jobs
   are in the order of their creation and are referred to by their place.  `entry` is the item's
   own column for the folded file name, None on items older than the column until it is first set.
   */
  datatype Document = Document(
    category: CategoryId, archived: bool, entry: Option<string>, versions: seq<Version>,
    publications: seq<Publication>, jobs: seq<IndexJob>, head: Option<Head>, move: Option<Move>)

  datatype Error =
    | CategoryInactive | InvalidFilename | FilenameConflict | ItemNotFound | VersionConflict | Forbidden
    | InProgress | ReclassificationInProgress | NotPublishable | NotInTrash | ConflictChanged
    | RequiresRepublication | NotPublished | SameCategory | Cancelled
    | IndexRefused  // the database refuses the row; no code of the store's own

  datatype Rights = Rights(archiveDraft: bool, archivePublished: bool)

  predicate Active(status: JobStatus) {
    status in {Pending, Parsing, Chunking, Summarizing, Embedding}
  }

  function Newest(d: Document): Version
    requires d.versions != []
  {
    d.versions[|d.versions| - 1]
  }

  function Marked(versions: seq<Version>, number: nat, status: Lifecycle): seq<Version> {
    if 1 <= number <= |versions| then versions[number - 1 := versions[number - 1].(status := status)] else versions
  }

  function Noted(publications: seq<Publication>, p: nat, status: PublicationStatus): seq<Publication> {
    if p < |publications| then publications[p := publications[p].(status := status)] else publications
  }

  function Turned(jobs: seq<IndexJob>, j: nat, status: JobStatus): seq<IndexJob> {
    if j < |jobs| then jobs[j := jobs[j].(status := status)] else jobs
  }

  predicate HasActiveJob(d: Document, number: nat) {
    exists j | 0 <= j < |d.jobs| :: Active(d.jobs[j].status) && d.jobs[j].number == number
  }

  // ---- what holds of every document ----

  predicate ActiveIsLast(d: Document) {
    forall j | 0 <= j < |d.jobs| - 1 :: !Active(d.jobs[j].status)
  }

  predicate IsActive(d: Document) {
    d.jobs != [] && Active(d.jobs[|d.jobs| - 1].status)
  }

  /** A head names a published version through a live publication of it; an archived document has none. */
  predicate HeadOk(d: Document) {
    d.head.Some? ==>
      && !d.archived
      && 1 <= d.head.value.number <= |d.versions|
      && d.versions[d.head.value.number - 1].status == Published
      && d.head.value.publication < |d.publications|
      && d.publications[d.head.value.publication] == Publication(d.head.value.number, Live)
  }

  /** Only the newest job can be active; then it publishes the newest version, which is `publishing`. */
  predicate JobsOk(d: Document) {
    && ActiveIsLast(d)
    && (IsActive(d) ==>
          var job := d.jobs[|d.jobs| - 1];
          && !d.archived
          && job.number == |d.versions|
          && job.publication < |d.publications|
          && d.publications[job.publication].number == job.number
          && d.publications[job.publication].status in {Requested, Indexing})
  }

  predicate VersionsOk(d: Document) {
    && d.versions != []
    && (forall n | 0 <= n < |d.versions| - 1 :: d.versions[n].status in {Superseded, Published})
    && Newest(d).status != Superseded
    && (Newest(d).status == Publishing <==> IsActive(d))
    && (Newest(d).status == Published && !d.archived ==> d.head.Some? && d.head.value.number == |d.versions|)
  }

  /** The unique index on publications: at most one per version is requested, indexing or live. */
  predicate PublicationsOk(d: Document) {
    forall p | 0 <= p < |d.publications| ::
      && 1 <= d.publications[p].number <= |d.versions|
      && (d.publications[p].status in {Requested, Indexing} ==> IsActive(d) && d.jobs[|d.jobs| - 1].publication == p)
      && (d.publications[p].status == Live ==>
            d.publications[p].number < |d.versions| || d.head == Some(Head(d.publications[p].number, p)))
  }

  predicate MoveOk(d: Document) {
    d.move.Some? ==>
      && d.head.Some? && d.head.value.number == |d.versions|
      && d.category in {d.move.value.source, d.move.value.target}
  }

  /** A column that was ever set holds the newest file name. */
  predicate EntryOk(d: Document) {
    d.entry.Some? && d.versions != [] ==> d.entry == Newest(d).name
  }

  predicate DocumentOk(d: Document) {
    VersionsOk(d) && HeadOk(d) && JobsOk(d) && PublicationsOk(d) && MoveOk(d) && EntryOk(d)
  }

  /** The least version number the head can name now or later. */
  function Floor(d: Document): nat {
    if d.head.Some? then d.head.value.number else |d.versions|
  }

  /** What the search for namesakes sees: category and folded newest name of an unarchived document. */
  function Key(d: Document): Option<(CategoryId, string)> {
    if d.archived || d.versions == [] || Newest(d).name.None? then None
    else Some((d.category, Newest(d).name.value))
  }

  /** The row of the unique file name index: the same of the stored column. */
  function Entry(d: Document): Option<(CategoryId, string)> {
    if d.archived || d.entry.None? then None else Some((d.category, d.entry.value))
  }

  /** File names, the column, category and archiving are the same in both. */
  predicate SameFiling(a: Document, b: Document) {
    && a.category == b.category && a.archived == b.archived && a.entry == b.entry && |a.versions| == |b.versions|
    && (a.versions != [] ==> Newest(a).name == Newest(b).name)
  }

  // ---- content store ----

  function Uploaded(category: CategoryId, name: Option<string>): (d: Document)
    ensures DocumentOk(d) && Floor(d) == 1
  {
    Document(category, false, name, [Version(PendingPublication, name)], [], [], None, None)
  }

  function Archive(d: Document, expected: nat, rights: Rights): (r: Result<Document, Error>)
    requires d.versions != []
    ensures DocumentOk(d) && r.Ok? ==> DocumentOk(r.value) && r.value.archived && Floor(r.value) >= Floor(d)
    ensures r.Ok? ==> r.value.versions == d.versions && r.value.head.None? && r.value.entry == d.entry
  {
    var needsPublish := d.head.Some? || Newest(d).status != PendingPublication;
    if d.archived then Err(ItemNotFound)
    else if !(if needsPublish then rights.archivePublished else rights.archiveDraft) then Err(Forbidden)
    else if expected != |d.versions| then Err(VersionConflict)
    else if Newest(d).status == Publishing || HasActiveJob(d, expected) then Err(InProgress)
    else if d.move.Some? then Err(ReclassificationInProgress)
    else
      var withdrawn := if d.head.Some? && d.head.value.publication < |d.publications|
                          && d.publications[d.head.value.publication].status == Live
                       then Noted(d.publications, d.head.value.publication, Withdrawn) else d.publications;
      Ok(d.(archived := true, head := None, publications := withdrawn))
  }

  /** The checks of a revision that concern the item itself. */
  function MayRevise(d: Document, expected: nat): Result<(), Error>
    requires d.versions != []
  {
    if d.archived then Err(ItemNotFound)
    else if expected != |d.versions| then Err(VersionConflict)
    else if Newest(d).status == Publishing || HasActiveJob(d, expected) then Err(InProgress)
    else if d.move.Some? then Err(ReclassificationInProgress)
    else Ok(())
  }

  /** A new newest version; the old one is superseded unless it is still the head. */
  function Revised(d: Document, name: Option<string>): (r: Document)
    requires d.versions != []
    ensures DocumentOk(d) && MayRevise(d, |d.versions|).Ok? ==> DocumentOk(r) && Floor(r) >= Floor(d)
    ensures |r.versions| == |d.versions| + 1 && r.entry == Newest(r).name == name
  {
    var kept := if d.head.Some? && d.head.value.number == |d.versions| then d.versions
                else Marked(d.versions, |d.versions|, Superseded);
    d.(versions := kept + [Version(PendingPublication, name)], entry := name)
  }

  function Restored(d: Document, category: CategoryId): (r: Document)
    requires d.versions != []
    ensures DocumentOk(d) && d.archived ==> DocumentOk(r) && Floor(r) == Floor(d)
    ensures |r.versions| == |d.versions| && r.entry == Newest(r).name == Newest(d).name
  {
    d.(versions := Marked(d.versions, |d.versions|, PendingPublication), archived := false, category := category,
       entry := Newest(d).name)
  }

  /** A draft moved to another category; its column is set again. */
  function Moved(d: Document, category: CategoryId): (r: Document)
    requires d.versions != []
    ensures DocumentOk(d) && d.move.None? ==> DocumentOk(r) && Floor(r) == Floor(d)
    ensures r.versions == d.versions && (d.category != category ==> r.entry == Newest(r).name)
  {
    if d.category == category then d else d.(category := category, entry := Newest(d).name)
  }

  // ---- publication ----

  function RequestPublication(d: Document, number: nat): (r: Result<Document, Error>)
    ensures DocumentOk(d) && !d.archived && r.Ok? ==> DocumentOk(r.value) && Floor(r.value) == Floor(d) && number == |d.versions|
    ensures r.Ok? ==> SameFiling(r.value, d)
  {
    if !(1 <= number <= |d.versions|) || d.versions[number - 1].status !in {PendingPublication, PublicationFailed}
    then Err(NotPublishable)
    else Ok(d.(
              versions := Marked(d.versions, number, Publishing),
              publications := d.publications + [Publication(number, Requested)],
              jobs := d.jobs + [IndexJob(|d.publications|, number, Pending)]))
  }

  predicate Runnable(d: Document, j: nat) {
    && j < |d.jobs|
    && d.jobs[j].status == Pending
    && d.jobs[j].publication < |d.publications|
    && d.publications[d.jobs[j].publication].status in {Requested, Indexing}
  }

  /** The worker takes a job that is still runnable. */
  function Start(d: Document, j: nat): (r: Document)
    requires Runnable(d, j)
    ensures DocumentOk(d) ==> DocumentOk(r) && Floor(r) == Floor(d)
    ensures SameFiling(r, d) && r.versions == d.versions && |r.jobs| == |d.jobs| && IsActive(r) == IsActive(d)
  {
    d.(publications := Noted(d.publications, d.jobs[j].publication, Indexing))
  }

  /** A stage update reaches active jobs only. */
  function UpdateStage(d: Document, j: nat, stage: JobStatus): (r: Result<Document, Error>)
    ensures DocumentOk(d) && Active(stage) && r.Ok? ==> DocumentOk(r.value) && Floor(r.value) == Floor(d)
    ensures r.Ok? ==> SameFiling(r.value, d) && r.value.versions == d.versions && |r.value.jobs| == |d.jobs|
  {
    if j < |d.jobs| && Active(d.jobs[j].status) then Ok(d.(jobs := Turned(d.jobs, j, stage))) else Err(Cancelled)
  }

  /** Make the job's version the item's head. */
  function Promote(d: Document, j: nat): (r: Result<Document, Error>)
    ensures DocumentOk(d) && r.Ok? ==> DocumentOk(r.value) && Floor(r.value) == |d.versions|
    ensures r.Ok? ==> SameFiling(r.value, d)
  {
    if j >= |d.jobs| || !Active(d.jobs[j].status) then Err(Cancelled)
    else
      var p, v := d.jobs[j].publication, d.jobs[j].number;
      var stepped := if d.head.Some? && d.head.value.number != v then Marked(d.versions, d.head.value.number, Superseded) else d.versions;
      Ok(d.(versions := Marked(stepped, v, Published), publications := Noted(d.publications, p, Live),
            jobs := Turned(d.jobs, j, Done), head := Some(Head(v, p))))
  }

  /** Declare a job failed, with its publication and version. */
  function Fail(d: Document, j: nat): (r: Document)
    ensures DocumentOk(d) && j < |d.jobs| && Active(d.jobs[j].status) ==> DocumentOk(r) && Floor(r) == Floor(d)
    ensures SameFiling(r, d)
  {
    if j >= |d.jobs| then d
    else d.(versions := Marked(d.versions, d.jobs[j].number, PublicationFailed),
            publications := Noted(d.publications, d.jobs[j].publication, Broken),
            jobs := Turned(d.jobs, j, Failed))
  }

  /** A boot fails every job that was running and keeps the waiting ones; `n` jobs are dealt with. */
  function Booted(d: Document, n: nat): (r: Document)
    requires n <= |d.jobs|
    ensures |r.jobs| == |d.jobs| && r.jobs[n..] == d.jobs[n..]
    ensures forall j | 0 <= j < n :: Active(r.jobs[j].status) ==> r.jobs[j].status == Pending
    ensures SameFiling(r, d)
    ensures DocumentOk(d) ==> DocumentOk(r) && Floor(r) == Floor(d)
  {
    if n == 0 then d
    else
      var rest := Booted(d, n - 1);
      if Active(d.jobs[n - 1].status) && d.jobs[n - 1].status != Pending then Fail(rest, n - 1) else rest
  }

  // ---- reclassification, as far as it concerns these rows ----

  function BeginMove(d: Document, expected: nat, target: CategoryId): (r: Result<Document, Error>)
    requires d.versions != []
    ensures DocumentOk(d) && r.Ok? ==> DocumentOk(r.value) && !IsActive(d) && r.value == d.(move := r.value.move)
  {
    if d.archived then Err(ItemNotFound)
    else if expected != |d.versions| then Err(VersionConflict)
    else if d.head.None? || d.head.value.number != expected || Newest(d).status != Published then Err(NotPublished)
    else if d.category == target then Err(SameCategory)
    else if d.move.Some? then Err(ReclassificationInProgress)
    else if exists j | 0 <= j < |d.jobs| :: Active(d.jobs[j].status) then Err(InProgress)
    else Ok(d.(move := Some(Move(d.category, target))))
  }

  /**
   Exactly when a publication request keeps the document sound.  The request never reads whether
   the item is archived; on an archived one the worker would give it a head again.
   */
  lemma RequestKeepsIff(d: Document, number: nat)
    requires DocumentOk(d) && RequestPublication(d, number).Ok?
    ensures DocumentOk(RequestPublication(d, number).value) <==> !d.archived
    ensures var requested := RequestPublication(d, number).value; var j := |d.jobs|;
      Promote(requested, j).Ok? && (HeadOk(Promote(requested, j).value) <==> !d.archived)
  {
    var requested := RequestPublication(d, number).value;
    assert requested.jobs[|requested.jobs| - 1] == IndexJob(|d.publications|, number, Pending);
  }
}
