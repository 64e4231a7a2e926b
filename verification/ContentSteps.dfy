/**
 What each step does to a document, row by row: which statuses it sets, and that it sets nothing
 else; and when it may be taken at all.
 */
module ContentSteps {
  import opened Prelude
  import opened ContentLifecycle

  /** One version takes a status, the others stay as they are. */
  predicate OneVersion(a: Document, b: Document, number: nat, status: Lifecycle) {
    && 1 <= number <= |a.versions| == |b.versions|
    && forall k | 0 <= k < |a.versions| :: b.versions[k] == if k + 1 == number then Version(status, a.versions[k].name) else a.versions[k]
  }

  predicate OnePublication(a: Document, b: Document, p: nat, status: PublicationStatus) {
    && p < |a.publications| == |b.publications|
    && forall k | 0 <= k < |a.publications| ::
         b.publications[k] == if k == p then Publication(a.publications[k].number, status) else a.publications[k]
  }

  predicate OneJob(a: Document, b: Document, j: nat, status: JobStatus) {
    && j < |a.jobs| == |b.jobs|
    && forall k | 0 <= k < |a.jobs| ::
         b.jobs[k] == if k == j then IndexJob(a.jobs[k].publication, a.jobs[k].number, status) else a.jobs[k]
  }

  predicate SamePlace(a: Document, b: Document) {
    a.category == b.category && a.archived == b.archived && a.entry == b.entry && a.move == b.move
  }

  /** Nobody else is at work on the document. */
  predicate Idle(d: Document) {
    (forall j | 0 <= j < |d.jobs| :: !Active(d.jobs[j].status)) && d.move.None?
  }

  // ---- what the steps do ----

  predicate FailedFrom(a: Document, b: Document, j: nat)
    requires j < |a.jobs|
  {
    && OneJob(a, b, j, JobStatus.Failed)
    && OnePublication(a, b, a.jobs[j].publication, Broken)
    && OneVersion(a, b, a.jobs[j].number, PublicationFailed)
    && b.head == a.head && SamePlace(a, b)
  }

  predicate PromotedFrom(a: Document, b: Document, j: nat)
    requires j < |a.jobs|
  {
    && OneJob(a, b, j, Done)
    && OnePublication(a, b, a.jobs[j].publication, Live)
    && |a.versions| == |b.versions| && 1 <= a.jobs[j].number <= |a.versions|
    && (forall k | 0 <= k < |a.versions| ::
          b.versions[k] == if k + 1 == a.jobs[j].number then Version(Published, a.versions[k].name)
                           else if a.head.Some? && a.head.value.number == k + 1 then Version(Superseded, a.versions[k].name)
                           else a.versions[k])
    && b.head == Some(Head(a.jobs[j].number, a.jobs[j].publication)) && SamePlace(a, b)
  }

  predicate RequestedFrom(a: Document, b: Document, number: nat) {
    && OneVersion(a, b, number, Publishing)
    && b.publications == a.publications + [Publication(number, Requested)]
    && b.jobs == a.jobs + [IndexJob(|a.publications|, number, Pending)]
    && b.head == a.head && SamePlace(a, b)
  }

  predicate StartedFrom(a: Document, b: Document, j: nat)
    requires j < |a.jobs|
  {
    OnePublication(a, b, a.jobs[j].publication, Indexing) && b.versions == a.versions && b.jobs == a.jobs && b.head == a.head && SamePlace(a, b)
  }

  predicate StagedFrom(a: Document, b: Document, j: nat, stage: JobStatus) {
    OneJob(a, b, j, stage) && b.versions == a.versions && b.publications == a.publications && b.head == a.head && SamePlace(a, b)
  }

  /** The head's publication is withdrawn with the head. */
  predicate ArchivedFrom(a: Document, b: Document) {
    && b.archived && b.head.None? && b.versions == a.versions && b.jobs == a.jobs
    && b.category == a.category && b.entry == a.entry && b.move == a.move
    && if a.head.Some? then OnePublication(a, b, a.head.value.publication, Withdrawn) else b.publications == a.publications
  }

  predicate RevisedFrom(a: Document, b: Document, name: Option<string>) {
    && |b.versions| == |a.versions| + 1 && b.versions[|a.versions|] == Version(PendingPublication, name)
    && (forall k | 0 <= k < |a.versions| ::
          b.versions[k] == if k + 1 == |a.versions| && !(a.head.Some? && a.head.value.number == |a.versions|)
                           then Version(Superseded, a.versions[k].name) else a.versions[k])
    && b.publications == a.publications && b.jobs == a.jobs && b.head == a.head
    && b.category == a.category && b.archived == a.archived && b.entry == name && b.move == a.move
  }

  predicate RestoredFrom(a: Document, b: Document, category: CategoryId) {
    && OneVersion(a, b, |a.versions|, PendingPublication)
    && b.publications == a.publications && b.jobs == a.jobs && b.head == a.head && b.move == a.move
    && b.category == category && !b.archived && b.entry == b.versions[|b.versions| - 1].name
  }

  lemma FailIs(d: Document, j: nat)
    requires DocumentOk(d) && j < |d.jobs| && Active(d.jobs[j].status)
    ensures FailedFrom(d, Fail(d, j), j)
  {
  }

  lemma PromoteIs(d: Document, j: nat)
    requires DocumentOk(d) && j < |d.jobs| && Active(d.jobs[j].status)
    ensures Promote(d, j).Ok? && PromotedFrom(d, Promote(d, j).value, j)
  {
  }

  lemma RequestIs(d: Document, number: nat)
    requires RequestPublication(d, number).Ok?
    ensures RequestedFrom(d, RequestPublication(d, number).value, number)
  {
  }

  lemma StartIs(d: Document, j: nat)
    requires Runnable(d, j)
    ensures StartedFrom(d, Start(d, j), j)
  {
  }

  lemma StageIs(d: Document, j: nat, stage: JobStatus)
    requires UpdateStage(d, j, stage).Ok?
    ensures StagedFrom(d, UpdateStage(d, j, stage).value, j, stage)
  {
  }

  lemma ArchiveIs(d: Document, expected: nat, rights: Rights)
    requires DocumentOk(d) && Archive(d, expected, rights).Ok?
    ensures ArchivedFrom(d, Archive(d, expected, rights).value)
  {
  }

  lemma ReviseIs(d: Document, name: Option<string>)
    requires d.versions != []
    ensures RevisedFrom(d, Revised(d, name), name)
  {
  }

  lemma RestoreIs(d: Document, category: CategoryId)
    requires d.versions != []
    ensures RestoredFrom(d, Restored(d, category), category)
  {
  }

  /** Every job that was running has failed; nothing else has changed. */
  predicate BootedFrom(a: Document, b: Document) {
    if exists j | 0 <= j < |a.jobs| :: Active(a.jobs[j].status) && a.jobs[j].status != Pending
    then exists j | 0 <= j < |a.jobs| :: Active(a.jobs[j].status) && a.jobs[j].status != Pending && FailedFrom(a, b, j)
    else b == a
  }

  lemma {:induction false} BootSkips(d: Document, n: nat)
    requires n <= |d.jobs| && forall j | 0 <= j < n :: Active(d.jobs[j].status) ==> d.jobs[j].status == Pending
    ensures Booted(d, n) == d
  {
    if n > 0 {
      BootSkips(d, n - 1);
    }
  }

  lemma BootIs(d: Document)
    requires DocumentOk(d)
    ensures BootedFrom(d, Booted(d, |d.jobs|))
  {
    var n := |d.jobs|;
    if n > 0 {
      BootSkips(d, n - 1);
      if Active(d.jobs[n - 1].status) && d.jobs[n - 1].status != Pending {
        FailIs(d, n - 1);
      }
    }
  }

  // ---- when the steps may be taken ----

  /** Who may archive: a draft that was never published asks for less. */
  predicate MayArchive(d: Document, expected: nat, rights: Rights)
    requires d.versions != []
  {
    && !d.archived && expected == |d.versions| && Idle(d)
    && if d.head.None? && Newest(d).status == PendingPublication then rights.archiveDraft else rights.archivePublished
  }

  lemma ArchiveOkIff(d: Document, expected: nat, rights: Rights)
    requires DocumentOk(d)
    ensures Archive(d, expected, rights).Ok? <==> MayArchive(d, expected, rights)
  {
  }

  lemma ReviseOkIff(d: Document, expected: nat)
    requires DocumentOk(d)
    ensures MayRevise(d, expected).Ok? <==> !d.archived && expected == |d.versions| && Idle(d)
  {
  }

  lemma RequestOkIff(d: Document, number: nat)
    requires DocumentOk(d)
    ensures RequestPublication(d, number).Ok? <==> number == |d.versions| && Newest(d).status in {PendingPublication, PublicationFailed}
  {
  }

  lemma MoveOkIff(d: Document, expected: nat, target: CategoryId)
    requires DocumentOk(d)
    ensures BeginMove(d, expected, target).Ok? <==>
              !d.archived && d.head.Some? && d.head.value.number == |d.versions| == expected && d.category != target && Idle(d)
    ensures BeginMove(d, expected, target).Ok? ==>
              BeginMove(d, expected, target).value == d.(move := Some(Move(d.category, target)))
  {
  }

  // ---- what a refusal says ----

  /** The newest version is being published: it is marked so, or a job for it is waiting or at work. */
  predicate BeingPublished(d: Document) {
    (d.versions != [] && Newest(d).status == Publishing) || exists j | 0 <= j < |d.jobs| :: Active(d.jobs[j].status)
  }

  predicate ArchiveRefused(d: Document, expected: nat, rights: Rights, error: Error)
    requires d.versions != []
  {
    match error
    case ItemNotFound => d.archived
    case Forbidden => if d.head.None? && Newest(d).status == PendingPublication then !rights.archiveDraft else !rights.archivePublished
    case VersionConflict => expected != |d.versions|
    case InProgress => BeingPublished(d)
    case ReclassificationInProgress => d.move.Some?
    case _ => false
  }

  lemma ArchiveRefusal(d: Document, expected: nat, rights: Rights)
    requires d.versions != [] && Archive(d, expected, rights).Err?
    ensures ArchiveRefused(d, expected, rights, Archive(d, expected, rights).error)
  {
  }

  predicate ReviseRefused(d: Document, expected: nat, error: Error) {
    match error
    case ItemNotFound => d.archived
    case VersionConflict => expected != |d.versions|
    case InProgress => BeingPublished(d)
    case ReclassificationInProgress => d.move.Some?
    case _ => false
  }

  lemma ReviseRefusal(d: Document, expected: nat)
    requires d.versions != [] && MayRevise(d, expected).Err?
    ensures ReviseRefused(d, expected, MayRevise(d, expected).error)
  {
  }

  predicate MoveRefused(d: Document, expected: nat, target: CategoryId, error: Error)
    requires d.versions != []
  {
    match error
    case ItemNotFound => d.archived
    case VersionConflict => expected != |d.versions|
    case NotPublished => d.head.None? || d.head.value.number != |d.versions| || Newest(d).status != Published
    case SameCategory => d.category == target
    case ReclassificationInProgress => d.move.Some?
    case InProgress => BeingPublished(d)
    case _ => false
  }

  lemma MoveRefusal(d: Document, expected: nat, target: CategoryId)
    requires d.versions != [] && BeginMove(d, expected, target).Err?
    ensures MoveRefused(d, expected, target, BeginMove(d, expected, target).error)
  {
  }
}
