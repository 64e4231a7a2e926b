/**
 One attachment version with everything the OCR queue and the search index keep about it: its
 OCR jobs, the OCR head, the search metadata, the search document and the term rows.
 */
module AttachmentRecords {
  import opened Prelude
  import Search = AttachmentSearch
  import Matching = TermMatching

  type Unicode = Matching.Unicode
  type Moment = int
  type JobId = nat
  type LeaseToken = nat
  /** Hashes and error codes are only ever compared. */
  type Sha = nat
  type ErrorCode = nat

  datatype Kind = Image | OtherAttachment | NotAttachment

  datatype Status = Pending | Running | Succeeded | NoText | Failed | Stale | Cancelled

  datatype Job = Job(
    id: JobId, created: Moment, sha: Sha, attempt: nat, status: Status,
    token: Option<LeaseToken>, leaseUntil: Option<Moment>, error: Option<ErrorCode>, text: Option<string>)

  datatype Head = Head(job: nat, sha: Sha)

  datatype Meta = Meta(revision: nat, description: string, tags: seq<string>, project: string, aliases: seq<string>)

  /** `texts` are the normalised file name, title, aliases, tags, project, description and OCR text. */
  datatype Doc = Doc(sha: Sha, revision: nat, texts: seq<string>, ocrJob: Option<nat>)

  /** Jobs are in the order of their creation and referred to by their place. */
  datatype Record = Record(
    kind: Kind, sha: Sha, filename: string, title: string, archived: bool, superseded: bool, published: bool,
    jobs: seq<Job>, head: Option<Head>, meta: Option<Meta>, doc: Option<Doc>, terms: set<(nat, string)>)

  datatype Error = OcrDisabled | OriginalImageNotFound | MetadataTooLarge | AttachmentNotFound

  predicate Waiting(status: Status) { status == Pending || status == Running }

  predicate Good(status: Status) { status == Succeeded || status == NoText }

  // ---- the index of one version ----

  function Joined(words: seq<string>): string {
    if words == [] then "" else if |words| == 1 then words[0] else words[0] + " " + Joined(words[1..])
  }

  /** The OCR job whose text is indexed: the head's, if it succeeded on the same bytes. */
  function IndexedJob(r: Record): Option<nat> {
    if r.head.Some? && r.head.value.sha == r.sha && r.head.value.job < |r.jobs| && r.jobs[r.head.value.job].status == Succeeded
    then Some(r.head.value.job) else None
  }

  function OcrText(r: Record): string {
    var job := IndexedJob(r);
    if job.Some? && r.jobs[job.value].text.Some? then r.jobs[job.value].text.value else ""
  }

  /** The search document computed afresh. */
  function FreshDoc(uni: Unicode, r: Record): Doc {
    var meta := r.meta;
    var raw := [r.filename, r.title,
                if meta.Some? then Joined(meta.value.aliases) else "", if meta.Some? then Joined(meta.value.tags) else "",
                if meta.Some? then meta.value.project else "", if meta.Some? then meta.value.description else "", OcrText(r)];
    Doc(r.sha, if meta.Some? then meta.value.revision else 0,
        seq(|raw|, i requires 0 <= i < |raw| => uni.normalize(raw[i])), IndexedJob(r))
  }

  function Terms(uni: Unicode, texts: seq<string>): set<(nat, string)> {
    set i, g | 0 <= i < |texts| && g in Matching.Grams(uni, texts[i]) :: (i, g)
  }

  /** `index_attachment_version`: rewrite the document and its term rows. */
  function Indexed(uni: Unicode, r: Record): (i: Record)
    ensures i == r.(doc := i.doc, terms := i.terms)
  {
    if r.kind == NotAttachment then r
    else r.(doc := Some(FreshDoc(uni, r)), terms := Terms(uni, FreshDoc(uni, r).texts))
  }

  // ---- what holds of every record ----

  /** Attempts are numbered 1, 2, ...; only the newest can be waiting; a lease belongs to a running job. */
  predicate JobsOk(jobs: seq<Job>) {
    forall j | 0 <= j < |jobs| ::
      && jobs[j].attempt == j + 1
      && (Waiting(jobs[j].status) ==> j == |jobs| - 1)
      && (jobs[j].token.Some? <==> jobs[j].status == Running)
      && (jobs[j].leaseUntil.Some? <==> jobs[j].status == Running)
  }

  /** The head is the newest attempt that found text or its absence, in the version's own bytes. */
  predicate HeadOk(r: Record) {
    && (r.head.Some? ==> r.head.value.job < |r.jobs| && Good(r.jobs[r.head.value.job].status) && r.head.value.sha == r.sha)
    && (forall j | 0 <= j < |r.jobs| && Good(r.jobs[j].status) :: r.head.Some? && j <= r.head.value.job)
  }

  /** The stored document and terms are what a fresh computation gives. */
  predicate FreshOk(uni: Unicode, r: Record) {
    && (r.doc.Some? ==> r.kind != NotAttachment && r.doc.value == FreshDoc(uni, r) && r.terms == Terms(uni, r.doc.value.texts))
    && (r.doc.None? ==> r.terms == {})
  }

  predicate RecordOk(uni: Unicode, r: Record) {
    JobsOk(r.jobs) && HeadOk(r) && FreshOk(uni, r)
  }

  /** Indexing makes document and terms fresh, whatever they were. */
  lemma IndexedKeeps(uni: Unicode, r: Record)
    requires JobsOk(r.jobs) && HeadOk(r) && (r.kind == NotAttachment ==> r.doc.None? && r.terms == {})
    ensures RecordOk(uni, Indexed(uni, r)) && (r.kind != NotAttachment ==> Indexed(uni, r).doc.Some?)
  {
    assert FreshDoc(uni, Indexed(uni, r)) == FreshDoc(uni, r);
  }

  /** Jobs that end well are the same in both. */
  predicate SameGood(a: seq<Job>, b: seq<Job>) {
    && |a| <= |b|
    && (forall j | 0 <= j < |a| && Good(a[j].status) :: b[j] == a[j])
    && (forall j | 0 <= j < |b| && Good(b[j].status) :: j < |a| && Good(a[j].status))
  }

  /** The document and the head depend on the jobs that ended well alone. */
  lemma JobsRewritten(uni: Unicode, r: Record, jobs: seq<Job>)
    requires RecordOk(uni, r) && JobsOk(jobs) && SameGood(r.jobs, jobs)
    ensures RecordOk(uni, r.(jobs := jobs))
  {
    var s := r.(jobs := jobs);
    assert IndexedJob(s) == IndexedJob(r) && OcrText(s) == OcrText(r);
  }

  /** What may become of a job while `tokens` is the number of lease tokens issued so far. */
  predicate JobMoves(a: Job, b: Job, tokens: nat) {
    && a.(status := b.status, token := b.token, leaseUntil := b.leaseUntil, error := b.error, text := b.text) == b
    && (!Waiting(a.status) ==> a == b)
    && (b.token.Some? ==> (b.token == a.token && b.leaseUntil == a.leaseUntil) || b.token.value >= tokens)
  }

  predicate JobsMove(a: seq<Job>, b: seq<Job>, tokens: nat) {
    |a| <= |b| && forall j | 0 <= j < |a| :: JobMoves(a[j], b[j], tokens)
  }

  /** Jobs are never lost, end once, and the head never falls back to an older attempt. */
  predicate Moves(r: Record, s: Record, tokens: nat) {
    && s.sha == r.sha && JobsMove(r.jobs, s.jobs, tokens)
    && (r.head.Some? ==> s.head.Some? && r.head.value.job <= s.head.value.job)
    && (s.head != r.head ==> s.head.Some? && s.head.value.job < |s.jobs| && Good(s.jobs[s.head.value.job].status))
    && (r.doc.Some? ==> s.doc.Some?)
  }

  lemma MovesTwice(a: Record, b: Record, c: Record, m: nat, n: nat)
    requires Moves(a, b, m) && Moves(b, c, n) && m <= n
    ensures Moves(a, c, m)
  {
    forall j | 0 <= j < |a.jobs| ensures JobMoves(a.jobs[j], c.jobs[j], m) {
      assert JobMoves(a.jobs[j], b.jobs[j], m) && JobMoves(b.jobs[j], c.jobs[j], n);
    }
  }

  // ---- steps ----

  function MaxAttempt(jobs: seq<Job>): (n: nat)
    ensures JobsOk(jobs) ==> n == |jobs|
    ensures forall j | 0 <= j < |jobs| :: jobs[j].attempt <= n
  {
    if jobs == [] then 0
    else
      var last := jobs[|jobs| - 1].attempt;
      var rest := MaxAttempt(jobs[..|jobs| - 1]);
      if last > rest then last else rest
  }

  function NewVersion(uni: Unicode, kind: Kind, sha: Sha, filename: string, title: string): Record {
    Indexed(uni, Record(kind, sha, filename, title, false, false, false, [], None, None, None, {}))
  }

  lemma NewVersionOk(uni: Unicode, kind: Kind, sha: Sha, filename: string, title: string)
    ensures RecordOk(uni, NewVersion(uni, kind, sha, filename, title))
    ensures kind != NotAttachment ==> NewVersion(uni, kind, sha, filename, title).doc.Some?
  {
    IndexedKeeps(uni, Record(kind, sha, filename, title, false, false, false, [], None, None, None, {}));
  }

  /** `enqueue_image_ocr`: the active job there is, or a new attempt. */
  function Enqueued(r: Record, id: JobId, now: Moment): Record {
    if exists j | 0 <= j < |r.jobs| :: Waiting(r.jobs[j].status) then r
    else r.(jobs := r.jobs + [Job(id, now, r.sha, MaxAttempt(r.jobs) + 1, Pending, None, None, None, None)])
  }

  lemma NewAttemptOk(jobs: seq<Job>, sha: Sha, id: JobId, now: Moment, tokens: nat)
    requires JobsOk(jobs) && forall j | 0 <= j < |jobs| :: !Waiting(jobs[j].status)
    ensures var next := jobs + [Job(id, now, sha, MaxAttempt(jobs) + 1, Pending, None, None, None, None)];
      JobsOk(next) && SameGood(jobs, next) && JobsMove(jobs, next, tokens)
  {
  }

  lemma EnqueuedKeeps(uni: Unicode, r: Record, id: JobId, now: Moment, tokens: nat)
    requires RecordOk(uni, r)
    ensures var s := Enqueued(r, id, now);
      RecordOk(uni, s) && Moves(r, s, tokens) && s.jobs != [] && Waiting(s.jobs[|s.jobs| - 1].status)
  {
    if forall j | 0 <= j < |r.jobs| :: !Waiting(r.jobs[j].status) {
      NewAttemptOk(r.jobs, r.sha, id, now, tokens);
      JobsRewritten(uni, r, Enqueued(r, id, now).jobs);
    }
  }

  predicate Expired(job: Job, now: Moment) {
    job.status == Running && job.leaseUntil.Some? && job.leaseUntil.value <= now
  }

  function Released(job: Job, status: Status): Job {
    job.(status := status, token := None, leaseUntil := None)
  }

  /** Expired leases go back to the queue. */
  function Requeued(r: Record, now: Moment): Record {
    r.(jobs := seq(|r.jobs|, j requires 0 <= j < |r.jobs| =>
                 if Expired(r.jobs[j], now) then Released(r.jobs[j], Pending) else r.jobs[j]))
  }

  lemma RequeuedKeeps(uni: Unicode, r: Record, now: Moment, tokens: nat)
    requires RecordOk(uni, r)
    ensures var s := Requeued(r, now);
      RecordOk(uni, s) && Moves(r, s, tokens) && forall j | 0 <= j < |s.jobs| :: !Expired(s.jobs[j], now)
  {
    JobsRewritten(uni, r, Requeued(r, now).jobs);
  }

  function Leased(r: Record, j: nat, token: LeaseToken, until: Moment): Record
    requires j < |r.jobs|
  {
    r.(jobs := r.jobs[j := r.jobs[j].(status := Running, token := Some(token), leaseUntil := Some(until))])
  }

  lemma LeasedKeeps(uni: Unicode, r: Record, j: nat, token: LeaseToken, until: Moment)
    requires RecordOk(uni, r) && j < |r.jobs| && r.jobs[j].status == Pending
    ensures RecordOk(uni, Leased(r, j, token, until)) && Moves(r, Leased(r, j, token, until), token)
  {
    JobsRewritten(uni, r, Leased(r, j, token, until).jobs);
  }

  /** `cancel_image_ocr`. */
  function CancelledAll(r: Record): Record {
    r.(jobs := seq(|r.jobs|, j requires 0 <= j < |r.jobs| =>
                 if Waiting(r.jobs[j].status) then Released(r.jobs[j], Cancelled) else r.jobs[j]))
  }

  lemma CancelledKeeps(uni: Unicode, r: Record, tokens: nat)
    requires RecordOk(uni, r)
    ensures var s := CancelledAll(r);
      RecordOk(uni, s) && Moves(r, s, tokens) && forall j | 0 <= j < |s.jobs| :: !Waiting(s.jobs[j].status)
  {
    JobsRewritten(uni, r, CancelledAll(r).jobs);
  }

  /** What a worker was handed with its lease. */
  datatype Lease = Lease(job: nat, token: LeaseToken, sha: Sha, attempt: nat)

  /** The worker still holds the job. */
  predicate Holds(r: Record, lease: Lease, now: Moment) {
    && lease.job < |r.jobs|
    && r.jobs[lease.job].status == Running
    && r.jobs[lease.job].token == Some(lease.token)
    && r.jobs[lease.job].leaseUntil.Some? && r.jobs[lease.job].leaseUntil.value > now
  }

  predicate Overtaken(r: Record, lease: Lease) {
    r.sha != lease.sha || r.archived || r.superseded || MaxAttempt(r.jobs) != lease.attempt
  }

  function Outcome(uni: Unicode, r: Record, lease: Lease, text: Option<string>, error: Option<ErrorCode>): Status {
    if Overtaken(r, lease) then Stale
    else if error.Some? then Failed
    else if text.Some? && !Matching.Blank(uni, text.value) then Succeeded
    else NoText
  }

  function Closed(job: Job, status: Status, text: Option<string>, error: Option<ErrorCode>): Job {
    job.(status := status, error := error, text := text, token := None, leaseUntil := None)
  }

  /** `finish_image_ocr` by the worker that holds the job: only text, or its absence, moves the head. */
  function Finished(uni: Unicode, r: Record, lease: Lease, text: Option<string>, error: Option<ErrorCode>): Record
    requires lease.job < |r.jobs|
  {
    var status := Outcome(uni, r, lease, text, error);
    var closed := r.(jobs := r.jobs[lease.job := Closed(r.jobs[lease.job], status, text, error)]);
    if Good(status) then Indexed(uni, closed.(head := Some(Head(lease.job, lease.sha)))) else closed
  }

  lemma ClosedOk(jobs: seq<Job>, j: nat, status: Status, text: Option<string>, error: Option<ErrorCode>, tokens: nat)
    requires JobsOk(jobs) && j < |jobs| && Waiting(jobs[j].status) && !Waiting(status)
    ensures var next := jobs[j := Closed(jobs[j], status, text, error)];
      JobsOk(next) && JobsMove(jobs, next, tokens) && (!Good(status) ==> SameGood(jobs, next))
  {
  }

  /** Text, or its absence, found by the newest attempt: head and index follow. */
  lemma GoodEndKeeps(uni: Unicode, r: Record, job: nat, jobs: seq<Job>, sha: Sha)
    requires RecordOk(uni, r) && JobsOk(jobs) && |jobs| == |r.jobs| && job == |jobs| - 1 && Good(jobs[job].status) && sha == r.sha
    requires forall j | 0 <= j < job :: jobs[j] == r.jobs[j]
    ensures RecordOk(uni, Indexed(uni, r.(jobs := jobs, head := Some(Head(job, sha)))))
  {
    IndexedKeeps(uni, r.(jobs := jobs, head := Some(Head(job, sha))));
  }

  lemma FinishedKeeps(uni: Unicode, r: Record, lease: Lease, text: Option<string>, error: Option<ErrorCode>, now: Moment, tokens: nat)
    requires RecordOk(uni, r) && Holds(r, lease, now)
    ensures var s := Finished(uni, r, lease, text, error);
      && RecordOk(uni, s) && Moves(r, s, tokens)
      && (if Good(s.jobs[lease.job].status) then s.head == Some(Head(lease.job, lease.sha)) else s == r.(jobs := s.jobs))
  {
    var status := Outcome(uni, r, lease, text, error);
    var jobs := r.jobs[lease.job := Closed(r.jobs[lease.job], status, text, error)];
    ClosedOk(r.jobs, lease.job, status, text, error, tokens);
    if Good(status) {
      GoodEndKeeps(uni, r, lease.job, jobs, lease.sha);
    } else {
      JobsRewritten(uni, r, jobs);
    }
  }

  predicate TooLarge(description: string, tags: seq<string>, project: string, aliases: seq<string>) {
    || |description| > 4000 || |project| > 300
    || (exists i | 0 <= i < |tags| :: |tags[i]| > 200) || (exists i | 0 <= i < |aliases| :: |aliases[i]| > 200)
    || |tags| > 50 || |aliases| > 50
  }

  /** `update_search_metadata`: the first revision is 1. */
  function Described(uni: Unicode, r: Record, description: string, tags: seq<string>, project: string, aliases: seq<string>): (s: Result<Record, Error>)
    ensures s.Ok? ==> s.value.meta.Some? && s.value.meta.value.revision == (if r.meta.Some? then r.meta.value.revision + 1 else 1)
  {
    if TooLarge(description, tags, project, aliases) then Err(MetadataTooLarge)
    else if r.kind == NotAttachment then Err(AttachmentNotFound)
    else
      var revision := if r.meta.Some? then r.meta.value.revision + 1 else 1;
      Ok(Indexed(uni, r.(meta := Some(Meta(revision, description, tags, project, aliases)))))
  }

  lemma DescribedKeeps(uni: Unicode, r: Record, description: string, tags: seq<string>, project: string, aliases: seq<string>, tokens: nat)
    requires RecordOk(uni, r) && Described(uni, r, description, tags, project, aliases).Ok?
    ensures var s := Described(uni, r, description, tags, project, aliases).value;
      RecordOk(uni, s) && Moves(r, s, tokens) && s.doc.Some?
  {
    var revision := if r.meta.Some? then r.meta.value.revision + 1 else 1;
    IndexedKeeps(uni, r.(meta := Some(Meta(revision, description, tags, project, aliases))));
  }

  lemma ReindexedKeeps(uni: Unicode, r: Record, tokens: nat)
    requires RecordOk(uni, r)
    ensures RecordOk(uni, Indexed(uni, r)) && Moves(r, Indexed(uni, r), tokens)
  {
    IndexedKeeps(uni, r);
  }

  /** What reconciliation looks for. */
  predicate OutOfDate(r: Record) {
    && r.kind != NotAttachment && r.published
    && (r.doc.None? || r.doc.value.sha != r.sha || r.doc.value.revision != if r.meta.Some? then r.meta.value.revision else 0)
  }

  // ---- what the search relies on ----

  function TermTexts(terms: set<(nat, string)>): set<string> {
    set t | t in terms :: t.1
  }

  /** A sound record with a document is indexed in the sense the search needs. */
  lemma IndexServesSearch(uni: Unicode, r: Record, filename: string, title: string, path: string)
    requires RecordOk(uni, r) && r.doc.Some?
    requires forall t: string :: uni.normalize(uni.normalize(t)) == uni.normalize(t)
    ensures Search.Indexed(uni, Search.Attachment(Some(r.doc.value.texts), TermTexts(r.terms), filename, title, path))
  {
    var texts := r.doc.value.texts;
    forall i | 0 <= i < |texts|
      ensures uni.normalize(texts[i]) == texts[i] && Matching.Grams(uni, texts[i]) <= TermTexts(r.terms)
    {
      forall g | g in Matching.Grams(uni, texts[i]) ensures g in TermTexts(r.terms) {
        assert (i, g) in r.terms;
        assert (i, g).1 == g;
      }
    }
  }

  /** The record as the search sees it. */
  function Shown(r: Record, path: string): Search.Attachment {
    Search.Attachment(if r.doc.Some? then Some(r.doc.value.texts) else None, TermTexts(r.terms), r.filename, r.title, path)
  }

  /** Each record with the path of its category. */
  function Rows(records: seq<(Record, string)>): seq<Search.Attachment> {
    seq(|records|, k requires 0 <= k < |records| => Shown(records[k].0, records[k].1))
  }

  /** Over sound records the narrowed search returns what testing every record returns. */
  lemma SearchOverRecordsIsScan(uni: Unicode, records: seq<(Record, string)>, words: seq<string>)
    requires Matching.Sensible(uni) && forall t: string :: uni.normalize(uni.normalize(t)) == uni.normalize(t)
    requires forall k | 0 <= k < |records| :: RecordOk(uni, records[k].0)
    requires forall k | 0 <= k < |records| ::
      forall i | 0 <= i < |words| :: Search.Served(uni, Shown(records[k].0, records[k].1), words[i])
    ensures Search.Search(uni, Rows(records), words) == Search.Scan(uni, Rows(records), words)
  {
    var rows := Rows(records);
    forall k | 0 <= k < |rows| ensures Search.Indexed(uni, rows[k]) {
      var r := records[k].0;
      if r.doc.Some? {
        IndexServesSearch(uni, r, r.filename, r.title, records[k].1);
      }
    }
    Search.SearchIsScan(uni, rows, words);
  }

  /** The only rows reconciliation can find are those never indexed: no other step leaves a stale one. */
  lemma OnlyMissingAreOutOfDate(uni: Unicode, r: Record)
    requires RecordOk(uni, r)
    ensures OutOfDate(r) <==> r.kind != NotAttachment && r.published && r.doc.None?
  {
  }
}
