/**
 The attachment index and the OCR queue at work: several workers lease jobs, request handlers
 enqueue, cancel and edit, and the clock advances.  Each method is one transaction.
 */
module AttachmentIndex {
  import opened Prelude
  import opened AttachmentRecords
  import opened AttachmentContents

  type VersionId = nat
  type Records = map<VersionId, Record>

  predicate AllOk(uni: Unicode, versions: Records) {
    forall v | v in versions :: RecordOk(uni, versions[v])
  }

  predicate Advanced(before: Records, after: Records, tokens: nat) {
    forall v | v in before :: v in after && Moves(before[v], after[v], tokens)
  }

  lemma AdvancedTwice(a: Records, b: Records, c: Records, m: nat, n: nat)
    requires Advanced(a, b, m) && Advanced(b, c, n) && m <= n
    ensures Advanced(a, c, m)
  {
    forall v | v in a ensures v in c && Moves(a[v], c[v], m) {
      MovesTwice(a[v], b[v], c[v], m, n);
    }
  }

  /** A job as the queue orders them. */
  datatype Place = Place(version: VersionId, job: nat)

  predicate IsPending(versions: Records, p: Place) {
    p.version in versions && p.job < |versions[p.version].jobs| && versions[p.version].jobs[p.job].status == Pending
  }

  predicate NotAfter(a: Job, b: Job) {
    a.created < b.created || (a.created == b.created && a.id <= b.id)
  }

  ghost predicate IsOldest(versions: Records, p: Place) {
    && IsPending(versions, p)
    && forall q | IsPending(versions, q) ::
         NotAfter(versions[p.version].jobs[p.job], versions[q.version].jobs[q.job])
  }

  /** Every expired lease was given back. */
  predicate GivenBack(before: Records, after: Records, now: Moment) {
    after.Keys == before.Keys && forall v | v in before :: RequeuedFrom(before[v], after[v], now)
  }

  lemma RequeuedFromIs(a: Record, b: Record, now: Moment)
    requires RequeuedFrom(a, b, now)
    ensures b == Requeued(a, now)
  {
    assert b.jobs == Requeued(a, now).jobs;
  }

  lemma GivenBackKeeps(uni: Unicode, before: Records, after: Records, now: Moment, tokens: nat)
    requires AllOk(uni, before) && GivenBack(before, after, now)
    ensures AllOk(uni, after) && Advanced(before, after, tokens)
  {
    forall v | v in before ensures RecordOk(uni, after[v]) && Moves(before[v], after[v], tokens) {
      RequeuedFromIs(before[v], after[v], now);
      RequeuedKeeps(uni, before[v], now, tokens);
    }
  }

  datatype Held = Held(version: VersionId, lease: Lease)

  /** The worker can no longer finish its job. */
  predicate Lost(versions: Records, h: Held, now: Moment) {
    h.version in versions ==> !Holds(versions[h.version], h.lease, now)
  }

  /**
   A lease once lost, by expiry, by being given to another worker, by cancellation or because the
   job ended, stays lost whatever happens next.
   */
  lemma LostStaysLost(before: Records, after: Records, h: Held, tokens: nat, now: Moment, later: Moment)
    requires Advanced(before, after, tokens) && now <= later && h.lease.token < tokens
    requires h.version in before && h.lease.job < |before[h.version].jobs| && JobsOk(before[h.version].jobs)
    requires Lost(before, h, now)
    ensures Lost(after, h, later)
  {
    assert JobMoves(before[h.version].jobs[h.lease.job], after[h.version].jobs[h.lease.job], tokens);
  }

  /** A job that ended stays as it ended, and the head's attempt never goes down. */
  lemma EndsOnce(before: Records, after: Records, v: VersionId, tokens: nat)
    requires Advanced(before, after, tokens) && v in before
    ensures forall j | 0 <= j < |before[v].jobs| && !Waiting(before[v].jobs[j].status) :: after[v].jobs[j] == before[v].jobs[j]
    ensures before[v].head.Some? ==> after[v].head.Some? && before[v].head.value.job <= after[v].head.value.job
  {
    forall j | 0 <= j < |before[v].jobs| && !Waiting(before[v].jobs[j].status) ensures after[v].jobs[j] == before[v].jobs[j] {
      assert JobMoves(before[v].jobs[j], after[v].jobs[j], tokens);
    }
  }

  /** The oldest pending job was leased, to the worker that now holds `h`. */
  ghost predicate Granted(before: Records, after: Records, h: Held, until: Moment) {
    var p := Place(h.version, h.lease.job);
    && IsOldest(before, p)
    && h.lease.sha == before[p.version].jobs[p.job].sha && h.lease.attempt == before[p.version].jobs[p.job].attempt
    && p.version in after && after == before[p.version := after[p.version]]
    && LeasedFrom(before[p.version], after[p.version], p.job, h.lease.token, until)
  }

  /** Twice the time the service is given, and half a minute, but at least a minute. */
  function LeaseSeconds(timeout: int): (s: int)
    ensures s >= 60 && s >= timeout * 2 + 30 && s in {60, timeout * 2 + 30}
  {
    if timeout * 2 + 30 > 60 then timeout * 2 + 30 else 60
  }

  datatype Command =
    | Create(version: VersionId, kind: Kind, sha: Sha, filename: string, title: string, id: JobId, scan: bool)
    | Enqueue(version: VersionId, id: JobId)
    | LeaseNext
    | Cancel(version: VersionId)
    | Finish(held: Held, text: Option<string>, error: Option<ErrorCode>)
    | Describe(version: VersionId, description: string, tags: seq<string>, project: string, aliases: seq<string>)
    | Reconcile(limit: int)
    | Mark(version: VersionId, archived: bool, superseded: bool, published: bool)
    | Wait(seconds: nat)

  class Index {
    const uni: Unicode
    const ocrEnabled: bool
    const timeout: int
    var versions: Records
    var now: Moment
    /** Lease tokens issued so far; each lease takes a fresh one. */
    var tokens: nat

    constructor (uni: Unicode, ocrEnabled: bool, timeout: int)
      ensures this.uni == uni && versions == map[] && AllOk(uni, versions)
    {
      this.uni, this.ocrEnabled, this.timeout := uni, ocrEnabled, timeout;
      versions, now, tokens := map[], 0, 0;
    }

    /** Rewrite what is kept about one version. */
    method Put(v: VersionId, r: Record)
      requires AllOk(uni, versions) && RecordOk(uni, r) && (v in versions ==> Moves(versions[v], r, tokens))
      modifies this`versions
      ensures AllOk(uni, versions) && Advanced(old(versions), versions, tokens) && versions == old(versions)[v := r]
    {
      Still(versions, tokens);
      versions := versions[v := r];
    }

    /** Uploads and revisions index the new version at once and queue its image, if its bytes are new. */
    method CreateVersion(v: VersionId, kind: Kind, sha: Sha, filename: string, title: string, id: JobId, scan: bool)
      requires AllOk(uni, versions) && v !in versions
      modifies this`versions
      ensures AllOk(uni, versions) && Advanced(old(versions), versions, tokens)
      ensures versions == old(versions)[v :=
        var r := NewVersion(uni, kind, sha, filename, title);
        if scan && ocrEnabled && kind == Image then Enqueued(r, id, now) else r]
      ensures kind != NotAttachment ==> Contents(uni, versions[v]) && Stores(uni, versions[v], FILENAME, filename) && Stores(uni, versions[v], TITLE, title)
      ensures versions[v].(jobs := [], doc := None, terms := {})
           == Record(kind, sha, filename, title, false, false, false, [], None, None, None, {})
      ensures versions[v].jobs == if scan && ocrEnabled && kind == Image then [Job(id, now, sha, 1, Pending, None, None, None, None)] else []
    {
      var r := NewVersion(uni, kind, sha, filename, title);
      NewVersionOk(uni, kind, sha, filename, title);
      if scan && ocrEnabled && kind == Image {
        EnqueuedKeeps(uni, r, id, now, tokens);
        r := Enqueued(r, id, now);
      }
      Put(v, r);
      if kind != NotAttachment {
        ContentsAre(uni, r);
      }
    }

    method EnqueueOcr(v: VersionId, id: JobId) returns (r: Result<nat, Error>)
      requires AllOk(uni, versions)
      modifies this`versions
      ensures AllOk(uni, versions) && Advanced(old(versions), versions, tokens)
      ensures r.Ok? <==> ocrEnabled && v in old(versions) && old(versions)[v].kind == Image && !old(versions)[v].archived
      ensures versions == if r.Ok? then old(versions)[v := Enqueued(old(versions)[v], id, now)] else old(versions)
      ensures r.Ok? ==> QueuedFrom(old(versions)[v], versions[v], id, now)
      ensures r.Ok? ==> r.value == |versions[v].jobs| - 1 && versions[v].jobs[r.value].status in {Pending, Running}
      ensures r.Err? ==> r.error == if ocrEnabled then OriginalImageNotFound else OcrDisabled
    {
      Still(versions, tokens);
      if !ocrEnabled {
        return Err(OcrDisabled);
      }
      if v !in versions || versions[v].kind != Image || versions[v].archived {
        return Err(OriginalImageNotFound);
      }
      EnqueuedKeeps(uni, versions[v], id, now, tokens);
      EnqueueIs(versions[v], id, now);
      Put(v, Enqueued(versions[v], id, now));
      return Ok(|versions[v].jobs| - 1);
    }

    /** The oldest pending job, if there is one. */
    method OldestPending() returns (best: Option<Place>)
      requires AllOk(uni, versions)
      ensures best.Some? ==> IsOldest(versions, best.value)
      ensures best.None? ==> forall q :: !IsPending(versions, q)
    {
      best := None;
      var rows := versions.Keys;
      while rows != {}
        invariant rows <= versions.Keys
        invariant best.Some? ==> IsPending(versions, best.value)
        invariant forall q | IsPending(versions, q) && q.version !in rows ::
          best.Some? && NotAfter(versions[best.value.version].jobs[best.value.job], versions[q.version].jobs[q.job])
        decreases rows
      {
        var v :| v in rows;
        var jobs := versions[v].jobs;
        if jobs != [] && jobs[|jobs| - 1].status == Pending {
          if best.None? || NotAfter(jobs[|jobs| - 1], versions[best.value.version].jobs[best.value.job]) {
            best := Some(Place(v, |jobs| - 1));
          }
        }
        rows := rows - {v};
      }
    }

    /** Lease the oldest pending job, if there is one. */
    method LeaseReady(ghost ready: Records) returns (h: Option<Held>)
      requires AllOk(uni, versions) && ready == versions
      modifies this`versions, this`tokens
      ensures AllOk(uni, versions) && Advanced(ready, versions, old(tokens)) && old(tokens) <= tokens
      ensures h.None? ==> versions == ready && forall q :: !IsPending(versions, q)
      ensures h.Some? ==> Granted(ready, versions, h.value, now + LeaseSeconds(timeout))
      ensures h.Some? ==> h.value.lease.token == old(tokens) && tokens == old(tokens) + 1 && !Lost(versions, h.value, now)
    {
      Still(versions, tokens);
      var best := OldestPending();
      if best.None? {
        return None;
      }
      var held := Grant(best.value);
      return Some(held);
    }

    /** Give back expired leases. */
    method RequeueExpired()
      modifies this`versions
      ensures GivenBack(old(versions), versions, now)
    {
      forall v | v in versions ensures RequeuedFrom(versions[v], Requeued(versions[v], now), now) {
        RequeueIs(versions[v], now);
      }
      versions := map v | v in versions :: Requeued(versions[v], now);
    }

    /** `lease_image_ocr`: give back expired leases, then lease the oldest job that is `ready`. */
    method LeaseOcr() returns (h: Option<Held>, ghost ready: Records)
      requires AllOk(uni, versions)
      modifies this`versions, this`tokens
      ensures AllOk(uni, versions) && Advanced(old(versions), versions, old(tokens)) && old(tokens) <= tokens
      ensures if ocrEnabled then GivenBack(old(versions), ready, now) else ready == old(versions) && h.None?
      ensures h.None? ==> versions == ready && (ocrEnabled ==> forall q :: !IsPending(ready, q))
      ensures h.Some? ==> Granted(ready, versions, h.value, now + LeaseSeconds(timeout))
      ensures h.Some? ==> h.value.lease.token == old(tokens) && tokens == old(tokens) + 1 && !Lost(versions, h.value, now)
    {
      if ocrEnabled {
        h, ready := LeaseFromQueue();
      } else {
        Still(versions, tokens);
        h, ready := None, versions;
      }
    }

    method LeaseFromQueue() returns (h: Option<Held>, ghost ready: Records)
      requires AllOk(uni, versions)
      modifies this`versions, this`tokens
      ensures AllOk(uni, versions) && Advanced(old(versions), versions, old(tokens)) && old(tokens) <= tokens
      ensures GivenBack(old(versions), ready, now)
      ensures h.None? ==> versions == ready && forall q :: !IsPending(ready, q)
      ensures h.Some? ==> Granted(ready, versions, h.value, now + LeaseSeconds(timeout))
      ensures h.Some? ==> h.value.lease.token == old(tokens) && tokens == old(tokens) + 1 && !Lost(versions, h.value, now)
    {
      hide AllOk, Advanced, GivenBack, Granted, IsPending;
      ghost var start, issued := versions, tokens;
      RequeueExpired();
      ready := versions;
      GivenBackKeeps(uni, start, ready, now, issued);
      h := LeaseReady(ready);
      AdvancedTwice(start, ready, versions, issued, issued);
    }

    /** Lease one pending job under a fresh token. */
    method Grant(p: Place) returns (h: Held)
      requires AllOk(uni, versions) && IsPending(versions, p)
      modifies this`versions, this`tokens
      ensures AllOk(uni, versions) && Advanced(old(versions), versions, old(tokens)) && tokens == old(tokens) + 1
      ensures h.version == p.version && h.lease.job == p.job && h.lease.token == old(tokens)
      ensures h.lease.sha == old(versions)[p.version].jobs[p.job].sha
      ensures h.lease.attempt == old(versions)[p.version].jobs[p.job].attempt
      ensures p.version in versions && versions == old(versions)[p.version := versions[p.version]]
      ensures LeasedFrom(old(versions)[p.version], versions[p.version], p.job, old(tokens), now + LeaseSeconds(timeout))
      ensures Holds(versions[p.version], h.lease, now)
    {
      hide Advanced, FreshOk, HeadOk;
      var job := versions[p.version].jobs[p.job];
      h := Held(p.version, Lease(p.job, tokens, job.sha, job.attempt));
      LeasedKeeps(uni, versions[p.version], p.job, tokens, now + LeaseSeconds(timeout));
      LeaseIs(versions[p.version], p.job, tokens, now + LeaseSeconds(timeout));
      Put(p.version, Leased(versions[p.version], p.job, tokens, now + LeaseSeconds(timeout)));
      tokens := tokens + 1;
    }

    method CancelOcr(v: VersionId)
      requires AllOk(uni, versions)
      modifies this`versions
      ensures AllOk(uni, versions) && Advanced(old(versions), versions, tokens)
      ensures versions == if v in old(versions) then old(versions)[v := CancelledAll(old(versions)[v])] else old(versions)
      ensures v in old(versions) ==> CancelledFrom(old(versions)[v], versions[v])
    {
      Still(versions, tokens);
      if v in versions {
        CancelledKeeps(uni, versions[v], tokens);
        CancelIs(versions[v]);
        Put(v, CancelledAll(versions[v]));
      }
    }

    /** `finish_image_ocr`: a worker that lost its lease changes nothing. */
    method FinishOcr(h: Held, text: Option<string>, error: Option<ErrorCode>) returns (accepted: bool)
      requires AllOk(uni, versions)
      modifies this`versions
      ensures AllOk(uni, versions) && Advanced(old(versions), versions, tokens)
      ensures accepted <==> !Lost(old(versions), h, now) && h.version in old(versions)
      ensures accepted <==> h.version in old(versions) && h.lease.job < |old(versions)[h.version].jobs|
                            && var job := old(versions)[h.version].jobs[h.lease.job];
                               job.status == Running && job.token == Some(h.lease.token) && job.leaseUntil.Some? && now < job.leaseUntil.value
      ensures accepted ==> h.version in versions && FinishedFrom(uni, old(versions)[h.version], versions[h.version], h.lease, text, error)
      ensures !accepted ==> versions == old(versions)
      ensures accepted ==> versions == old(versions)[h.version := Finished(uni, old(versions)[h.version], h.lease, text, error)]
    {
      Still(versions, tokens);
      if h.version !in versions || !Holds(versions[h.version], h.lease, now) {
        return false;
      }
      FinishedKeeps(uni, versions[h.version], h.lease, text, error, now, tokens);
      FinishIs(uni, versions[h.version], h.lease, text, error, now);
      Put(h.version, Finished(uni, versions[h.version], h.lease, text, error));
      return true;
    }

    method UpdateSearchMetadata(v: VersionId, description: string, tags: seq<string>, project: string, aliases: seq<string>)
      returns (r: Result<(), Error>)
      requires AllOk(uni, versions)
      modifies this`versions
      ensures AllOk(uni, versions) && Advanced(old(versions), versions, tokens)
      ensures r.Ok? <==> v in old(versions) && old(versions)[v].kind != NotAttachment
                         && |description| <= 4000 && |project| <= 300 && |tags| <= 50 && |aliases| <= 50
                         && (forall i | 0 <= i < |tags| :: |tags[i]| <= 200) && (forall i | 0 <= i < |aliases| :: |aliases[i]| <= 200)
      ensures r.Err? ==> r.error == MetadataTooLarge
                         || (r.error == AttachmentNotFound && (v !in old(versions) || old(versions)[v].kind == NotAttachment))
      ensures r.Err? && r.error == MetadataTooLarge ==>
                || |description| > 4000 || |project| > 300 || |tags| > 50 || |aliases| > 50
                || (exists i | 0 <= i < |tags| :: |tags[i]| > 200) || (exists i | 0 <= i < |aliases| :: |aliases[i]| > 200)
      ensures r.Ok? ==> DescribedFrom(uni, old(versions)[v], versions[v], description, tags, project, aliases)
      ensures r.Ok? <==> v in old(versions) && Described(uni, old(versions)[v], description, tags, project, aliases).Ok?
      ensures versions == if r.Ok? then old(versions)[v := Described(uni, old(versions)[v], description, tags, project, aliases).value]
                          else old(versions)
    {
      Still(versions, tokens);
      if TooLarge(description, tags, project, aliases) {
        return Err(MetadataTooLarge);
      }
      if v !in versions {
        return Err(AttachmentNotFound);
      }
      var next :- Described(uni, versions[v], description, tags, project, aliases);
      DescribedKeeps(uni, versions[v], description, tags, project, aliases, tokens);
      DescribeIs(uni, versions[v], description, tags, project, aliases);
      Put(v, next);
      return Ok(());
    }

    /** `reconcile_attachment_index`: index some of the published versions that are out of date. */
    method Reconcile(limit: int) returns (count: nat)
      requires AllOk(uni, versions)
      modifies this`versions
      ensures AllOk(uni, versions) && Advanced(old(versions), versions, tokens)
      ensures count <= Limit(limit)
      ensures count < Limit(limit) ==>
                forall v | v in versions && versions[v].kind != NotAttachment && versions[v].published :: versions[v].doc.Some?
      ensures Refreshed(uni, old(versions), versions)
      ensures count == |NewlyIndexed(old(versions), versions)|
      ensures forall v | v in NewlyIndexed(old(versions), versions) :: versions[v].published && Contents(uni, versions[v])
    {
      hide AllOk, Advanced, Refreshed, Indexed, Contents, RecordOk, OutOfDate;
      var start := versions;
      NothingRefreshed(uni, start);
      var rows, next := start.Keys, start;
      count := 0;
      ghost var done: set<VersionId> := {};
      while rows != {} && count < Limit(limit)
        invariant rows <= start.Keys == next.Keys && count <= Limit(limit) && Refreshed(uni, start, next)
        invariant forall v | v in next && v !in rows :: !OutOfDate(next[v])
        invariant forall v | v in rows :: next[v] == start[v]
        invariant done !! rows && done <= start.Keys && |done| == count
        invariant forall v | v in done :: OutOfDate(start[v]) && next[v] == Indexed(uni, start[v])
        invariant forall v | v in start && v !in done :: next[v] == start[v]
        decreases rows
      {
        var v :| v in rows;
        if OutOfDate(next[v]) {
          RefreshedStep(uni, start, next, v);
          next := next[v := Indexed(uni, next[v])];
          count, done := count + 1, done + {v};
        }
        rows := rows - {v};
      }
      RefreshedKeeps(uni, start, next, tokens);
      IndexedOnes(uni, start, next, done);
      NothingMissing(uni, next);
      versions := next;
    }

    /** One command of a run; other code archives, supersedes and publishes versions. */
    method Handle(c: Command)
      requires AllOk(uni, versions)
      modifies this`versions, this`tokens, this`now
      ensures AllOk(uni, versions) && Advanced(old(versions), versions, old(tokens)) && old(tokens) <= tokens && old(now) <= now
    {
      Still(versions, tokens);
      match c
      case Create(v, kind, sha, filename, title, id, scan) =>
        if v !in versions { CreateVersion(v, kind, sha, filename, title, id, scan); }
      case Enqueue(v, id) => var _ := EnqueueOcr(v, id);
      case Cancel(v) => CancelOcr(v);
      case Describe(v, description, tags, project, aliases) =>
        var _ := UpdateSearchMetadata(v, description, tags, project, aliases);
      case Mark(v, archived, superseded, published) =>
        if v in versions { Put(v, versions[v].(archived := archived, superseded := superseded, published := published)); }
      case Wait(seconds) => now := now + seconds;
      case _ => Work(c);
    }

    /** One command of an OCR worker. */
    method Work(c: Command)
      requires AllOk(uni, versions)
      modifies this`versions, this`tokens
      ensures AllOk(uni, versions) && Advanced(old(versions), versions, old(tokens)) && old(tokens) <= tokens
    {
      Still(versions, tokens);
      match c
      case LeaseNext => var _, _ := LeaseOcr();
      case Finish(h, text, error) => var _ := FinishOcr(h, text, error);
      case Reconcile(limit) => var _ := Reconcile(limit);
      case _ =>
    }

    /**
     Any interleaving of workers and handlers: every index stays fresh, every version has at most
     one active job and it is its newest, jobs end once, heads never fall back, and a worker that
     had lost its lease before is still locked out.
     */
    method Drive(commands: seq<Command>, ghost h: Held)
      requires AllOk(uni, versions)
      modifies this`versions, this`tokens, this`now
      ensures AllOk(uni, versions) && Advanced(old(versions), versions, old(tokens))
      ensures forall v | v in versions && versions[v].doc.Some? :: Contents(uni, versions[v])
      ensures old(h.version in versions && h.lease.job < |versions[h.version].jobs| && h.lease.token < tokens && Lost(versions, h, now))
              ==> Lost(versions, h, now)
    {
      Still(versions, tokens);
      for i := 0 to |commands|
        invariant AllOk(uni, versions) && Advanced(old(versions), versions, old(tokens))
        invariant old(tokens) <= tokens && old(now) <= now
      {
        ghost var between, issued := versions, tokens;
        Handle(commands[i]);
        AdvancedTwice(old(versions), between, versions, old(tokens), issued);
      }
      forall v | v in versions && versions[v].doc.Some? ensures Contents(uni, versions[v]) {
        ContentsAre(uni, versions[v]);
      }
      if old(h.version in versions && h.lease.job < |versions[h.version].jobs| && h.lease.token < tokens && Lost(versions, h, now)) {
        LostStaysLost(old(versions), versions, h, old(tokens), old(now), now);
      }
    }
  }

  /** Some versions were indexed again, nothing else changed. */
  predicate Refreshed(uni: Unicode, before: Records, after: Records) {
    && after.Keys == before.Keys
    && forall v | v in after :: after[v] == before[v] || after[v] == Indexed(uni, before[v])
  }

  /** The versions that have a document since. */
  function NewlyIndexed(before: Records, after: Records): set<VersionId> {
    set v | v in before && v in after && before[v].doc.None? && after[v].doc.Some?
  }

  lemma IndexedOnes(uni: Unicode, before: Records, after: Records, done: set<VersionId>)
    requires AllOk(uni, before) && AllOk(uni, after) && before.Keys == after.Keys && done <= before.Keys
    requires forall v | v in done :: OutOfDate(before[v]) && after[v] == Indexed(uni, before[v])
    requires forall v | v in before && v !in done :: after[v] == before[v]
    ensures NewlyIndexed(before, after) == done
    ensures forall v | v in done :: after[v].published && Contents(uni, after[v])
  {
    hide Contents, RecordOk, FreshDoc, Terms;
    forall v | v in done ensures before[v].doc.None? && after[v].doc.Some? && after[v].published && Contents(uni, after[v]) {
      OnlyMissingAreOutOfDate(uni, before[v]);
      ContentsAre(uni, after[v]);
    }
  }

  lemma NothingMissing(uni: Unicode, versions: Records)
    requires AllOk(uni, versions)
    ensures (forall v | v in versions :: !OutOfDate(versions[v])) ==>
            forall v | v in versions && versions[v].kind != NotAttachment && versions[v].published :: versions[v].doc.Some?
  {
    forall v | v in versions {
      OnlyMissingAreOutOfDate(uni, versions[v]);
    }
  }

  lemma NothingRefreshed(uni: Unicode, versions: Records)
    ensures Refreshed(uni, versions, versions)
  {
  }

  lemma RefreshedStep(uni: Unicode, before: Records, now: Records, v: VersionId)
    requires Refreshed(uni, before, now) && v in before && now[v] == before[v]
    ensures Refreshed(uni, before, now[v := Indexed(uni, now[v])]) && !OutOfDate(Indexed(uni, now[v]))
  {
  }

  lemma RefreshedKeeps(uni: Unicode, before: Records, after: Records, tokens: nat)
    requires AllOk(uni, before) && Refreshed(uni, before, after)
    ensures AllOk(uni, after) && Advanced(before, after, tokens)
  {
    forall v | v in after ensures RecordOk(uni, after[v]) && Moves(before[v], after[v], tokens) {
      ReindexedKeeps(uni, before[v], tokens);
    }
  }

  /** The limit asked for, held between 1 and 500. */
  function Limit(limit: int): (n: nat)
    ensures 1 <= n <= 500 && (1 <= limit <= 500 ==> n == limit) && (limit > 500 ==> n == 500) && (limit < 1 ==> n == 1)
  {
    if limit > 500 then 500 else if limit < 1 then 1 else limit
  }

  lemma Still(versions: Records, tokens: nat)
    ensures Advanced(versions, versions, tokens)
  {
  }
}
