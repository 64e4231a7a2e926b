/**
 What the index holds of a version, field by field, and what each step does to its jobs, said
 without the functions that compute them.
 */
module AttachmentContents {
  import opened Prelude
  import opened AttachmentRecords
  import Matching = TermMatching

  /** Places of the fields in a search document. */
  const FILENAME := 0
  const TITLE := 1
  const ALIASES := 2
  const TAGS := 3
  const PROJECT := 4
  const DESCRIPTION := 5
  const OCR := 6

  /** The field holds the normalised text, and the term rows hold its grams and no others. */
  ghost predicate Stores(uni: Unicode, r: Record, field: nat, text: string) {
    && r.doc.Some? && field < |r.doc.value.texts| && r.doc.value.texts[field] == uni.normalize(text)
    && forall g: string :: (field, g) in r.terms <==> g in Matching.Grams(uni, uni.normalize(text))
  }

  /** The newest attempt that found text, or that there is none. */
  predicate NewestGood(r: Record, j: nat) {
    j < |r.jobs| && Good(r.jobs[j].status) && forall k | j < k < |r.jobs| :: !Good(r.jobs[k].status)
  }


  /** Everything a version can be found by is in its document. */
  ghost predicate Contents(uni: Unicode, r: Record) {
    && Stores(uni, r, FILENAME, r.filename) && Stores(uni, r, TITLE, r.title)
    && (match r.meta
        case Some(m) =>
          && Stores(uni, r, ALIASES, Joined(m.aliases)) && Stores(uni, r, TAGS, Joined(m.tags))
          && Stores(uni, r, PROJECT, m.project) && Stores(uni, r, DESCRIPTION, m.description)
        case None =>
          && Stores(uni, r, ALIASES, "") && Stores(uni, r, TAGS, "")
          && Stores(uni, r, PROJECT, "") && Stores(uni, r, DESCRIPTION, ""))
    && (forall j: nat | NewestGood(r, j) && r.jobs[j].status == Succeeded && r.jobs[j].text.Some? ::
          Stores(uni, r, OCR, r.jobs[j].text.value))
    && ((forall j: nat | NewestGood(r, j) :: r.jobs[j].status != Succeeded) ==> Stores(uni, r, OCR, ""))
  }

  lemma FieldStored(uni: Unicode, r: Record, field: nat, text: string)
    requires FreshOk(uni, r) && r.doc.Some? && field < |r.doc.value.texts| && r.doc.value.texts[field] == uni.normalize(text)
    ensures Stores(uni, r, field, text)
  {
    var texts := r.doc.value.texts;
    forall g: string ensures (field, g) in Terms(uni, texts) <==> g in Matching.Grams(uni, texts[field]) {
    }
  }

  /** Every sound record holds all of its contents, whatever steps led to it. */
  lemma ContentsAre(uni: Unicode, r: Record)
    requires RecordOk(uni, r) && r.doc.Some?
    ensures Contents(uni, r)
  {
    hide Terms, Matching.Grams;
    var texts := r.doc.value.texts;
    FieldStored(uni, r, FILENAME, r.filename);
    FieldStored(uni, r, TITLE, r.title);
    var meta := if r.meta.Some? then r.meta.value else Meta(0, "", [], "", []);
    FieldStored(uni, r, ALIASES, Joined(meta.aliases));
    FieldStored(uni, r, TAGS, Joined(meta.tags));
    FieldStored(uni, r, PROJECT, meta.project);
    FieldStored(uni, r, DESCRIPTION, meta.description);
    FieldStored(uni, r, OCR, OcrText(r));
    OcrTextIs(r);
  }

  lemma OcrTextIs(r: Record)
    requires HeadOk(r)
    ensures forall j: nat | NewestGood(r, j) && r.jobs[j].status == Succeeded && r.jobs[j].text.Some? :: OcrText(r) == r.jobs[j].text.value
    ensures (forall j: nat | NewestGood(r, j) :: r.jobs[j].status != Succeeded) ==> OcrText(r) == ""
  {
    if r.head.Some? {
      assert NewestGood(r, r.head.value.job);
    }
  }

  /** Words joined: the parts with a space between them. */
  lemma {:induction false} JoinedAppends(a: seq<string>, b: seq<string>)
    requires a != [] && b != []
    ensures Joined(a + b) == Joined(a) + " " + Joined(b)
  {
    if |a| == 1 {
      assert (a + b)[1..] == b;
    } else {
      assert (a + b)[1..] == a[1..] + b;
      JoinedAppends(a[1..], b);
    }
  }

  lemma JoinedOne(word: string)
    ensures Joined([]) == "" && Joined([word]) == word
  {
  }

  // ---- what the steps do ----

  /** A new attempt waits at the end, unless one was waiting or running. */
  predicate QueuedFrom(a: Record, b: Record, id: JobId, now: Moment) {
    if forall j | 0 <= j < |a.jobs| :: a.jobs[j].status !in {Pending, Running}
    then b == a.(jobs := a.jobs + [Job(id, now, a.sha, |a.jobs| + 1, Pending, None, None, None, None)])
    else b == a
  }

  /** Exactly the expired leases are given back. */
  predicate RequeuedFrom(a: Record, b: Record, now: Moment) {
    && b == a.(jobs := b.jobs) && |b.jobs| == |a.jobs|
    && forall j | 0 <= j < |a.jobs| ::
         b.jobs[j] == if a.jobs[j].status == Running && a.jobs[j].leaseUntil.Some? && a.jobs[j].leaseUntil.value <= now
                      then a.jobs[j].(status := Pending, token := None, leaseUntil := None) else a.jobs[j]
  }

  predicate LeasedFrom(a: Record, b: Record, j: nat, token: LeaseToken, until: Moment) {
    && b == a.(jobs := b.jobs) && j < |a.jobs| == |b.jobs|
    && forall k | 0 <= k < |a.jobs| ::
         b.jobs[k] == if k == j then a.jobs[k].(status := Running, token := Some(token), leaseUntil := Some(until)) else a.jobs[k]
  }

  predicate CancelledFrom(a: Record, b: Record) {
    && b == a.(jobs := b.jobs) && |b.jobs| == |a.jobs|
    && forall j | 0 <= j < |a.jobs| ::
         b.jobs[j] == if a.jobs[j].status in {Pending, Running}
                      then a.jobs[j].(status := Cancelled, token := None, leaseUntil := None) else a.jobs[j]
  }

  /** How an attempt ends: text counts only from the newest attempt on an unchanged, current version. */
  predicate EndsAs(uni: Unicode, a: Record, lease: Lease, text: Option<string>, error: Option<ErrorCode>, status: Status) {
    var stale := a.sha != lease.sha || a.archived || a.superseded || lease.attempt != |a.jobs|;
    var found := text.Some? && exists i | 0 <= i < |text.value| :: !uni.isSpace(text.value[i]);
    && (status == Stale <==> stale)
    && (status == Failed <==> !stale && error.Some?)
    && (status == Succeeded <==> !stale && error.None? && found)
    && (status == NoText <==> !stale && error.None? && !found)
  }

  ghost predicate FinishedFrom(uni: Unicode, a: Record, b: Record, lease: Lease, text: Option<string>, error: Option<ErrorCode>) {
    && lease.job < |a.jobs| == |b.jobs|
    && (forall k | 0 <= k < |a.jobs| && k != lease.job :: b.jobs[k] == a.jobs[k])
    && b == a.(jobs := b.jobs, head := b.head, doc := b.doc, terms := b.terms)
    && var status := b.jobs[lease.job].status;
       && EndsAs(uni, a, lease, text, error, status)
       && b.jobs[lease.job] == a.jobs[lease.job].(status := status, error := error, text := text, token := None, leaseUntil := None)
       && (status in {Stale, Failed} ==> b.head == a.head && b.doc == a.doc && b.terms == a.terms)
       && (status in {Succeeded, NoText} ==> b.head == Some(Head(lease.job, lease.sha)))
       && (a.kind != NotAttachment && status == Succeeded ==> text.Some? && Stores(uni, b, OCR, text.value))
       && (a.kind != NotAttachment && status == NoText ==> Stores(uni, b, OCR, ""))
  }

  ghost predicate DescribedFrom(uni: Unicode, a: Record, b: Record, description: string, tags: seq<string>, project: string, aliases: seq<string>) {
    && b == a.(meta := Some(Meta(if a.meta.Some? then a.meta.value.revision + 1 else 1, description, tags, project, aliases)),
               doc := b.doc, terms := b.terms)
    && Stores(uni, b, DESCRIPTION, description) && Stores(uni, b, TAGS, Joined(tags))
    && Stores(uni, b, PROJECT, project) && Stores(uni, b, ALIASES, Joined(aliases))
  }

  lemma EnqueueIs(r: Record, id: JobId, now: Moment)
    requires JobsOk(r.jobs)
    ensures QueuedFrom(r, Enqueued(r, id, now), id, now)
  {
  }

  lemma RequeueIs(r: Record, now: Moment)
    ensures RequeuedFrom(r, Requeued(r, now), now)
  {
  }

  lemma LeaseIs(r: Record, j: nat, token: LeaseToken, until: Moment)
    requires j < |r.jobs|
    ensures LeasedFrom(r, Leased(r, j, token, until), j, token, until)
  {
  }

  lemma CancelIs(r: Record)
    ensures CancelledFrom(r, CancelledAll(r))
  {
  }

  lemma FinishIs(uni: Unicode, r: Record, lease: Lease, text: Option<string>, error: Option<ErrorCode>, now: Moment)
    requires RecordOk(uni, r) && Holds(r, lease, now)
    ensures FinishedFrom(uni, r, Finished(uni, r, lease, text, error), lease, text, error)
  {
    hide Terms, Matching.Grams, Stores, Contents;
    var b := Finished(uni, r, lease, text, error);
    FinishedKeeps(uni, r, lease, text, error, now, 0);
    if r.kind != NotAttachment && Good(b.jobs[lease.job].status) {
      FinishedContents(uni, r, lease, text, error, b);
    }
  }

  /** After an attempt that ended well its own text, or none, is the recognised text. */
  lemma FinishedContents(uni: Unicode, r: Record, lease: Lease, text: Option<string>, error: Option<ErrorCode>, b: Record)
    requires lease.job < |r.jobs| && r.kind != NotAttachment && RecordOk(uni, b) && b == Finished(uni, r, lease, text, error)
    requires Good(b.jobs[lease.job].status) && b.head == Some(Head(lease.job, lease.sha))
    ensures if b.jobs[lease.job].status == Succeeded then text.Some? && Stores(uni, b, OCR, text.value) else Stores(uni, b, OCR, "")
  {
    hide Terms, Matching.Grams, Stores;
    assert NewestGood(b, lease.job);
    ContentsAre(uni, b);
    OcrStored(uni, b, lease.job);
  }

  lemma OcrStored(uni: Unicode, r: Record, j: nat)
    requires Contents(uni, r) && NewestGood(r, j)
    ensures r.jobs[j].status == Succeeded && r.jobs[j].text.Some? ==> Stores(uni, r, OCR, r.jobs[j].text.value)
    ensures r.jobs[j].status != Succeeded ==> Stores(uni, r, OCR, "")
  {
    hide Stores;
    assert forall k: nat | NewestGood(r, k) :: k == j;
  }

  lemma DescribeIs(uni: Unicode, r: Record, description: string, tags: seq<string>, project: string, aliases: seq<string>)
    requires RecordOk(uni, r) && Described(uni, r, description, tags, project, aliases).Ok?
    ensures DescribedFrom(uni, r, Described(uni, r, description, tags, project, aliases).value, description, tags, project, aliases)
  {
    hide Terms, Matching.Grams, Stores;
    DescribedKeeps(uni, r, description, tags, project, aliases, 0);
    ContentsAre(uni, Described(uni, r, description, tags, project, aliases).value);
  }
}
