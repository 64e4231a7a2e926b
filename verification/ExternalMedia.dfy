/** Reconciling the table of a share's files with a scan of the share. */
module ExternalMedia {
  import opened Prelude

  /** Paths and fingerprints are only ever compared. */
  type Path = nat
  type Fingerprint = nat
  type Moment = int

  datatype Availability = Available | Missing | Superseded

  datatype Entry = Entry(path: Path, fingerprint: Fingerprint, availability: Availability,
                         discovered: Moment, lastSeen: Moment, missingSince: Option<Moment>)

  datatype File = File(path: Path, fingerprint: Fingerprint)

  /** The unique index: one available entry for a path. */
  predicate OnePerPath(entries: seq<Entry>) {
    forall i, j | 0 <= i < j < |entries| ::
      entries[i].availability == Available && entries[j].availability == Available ==> entries[i].path != entries[j].path
  }

  predicate DistinctPaths(files: seq<File>) {
    forall i, j | 0 <= i < j < |files| :: files[i].path != files[j].path
  }

  // ---- lookups ----

  function FileAt(files: seq<File>, path: Path): (r: Option<File>)
    ensures r.Some? ==> r.value in files && r.value.path == path
    ensures r.None? ==> forall i | 0 <= i < |files| :: files[i].path != path
  {
    if files == [] then None
    else if files[|files| - 1].path == path then Some(files[|files| - 1])
    else FileAt(files[..|files| - 1], path)
  }

  /** The available entry of a path. */
  function CurrentAt(entries: seq<Entry>, path: Path): (r: Option<nat>)
    ensures r.Some? ==> r.value < |entries| && entries[r.value].path == path && entries[r.value].availability == Available
    ensures r.None? ==> forall i | 0 <= i < |entries| :: !(entries[i].path == path && entries[i].availability == Available)
  {
    if entries == [] then None
    else if entries[|entries| - 1].path == path && entries[|entries| - 1].availability == Available then Some(|entries| - 1)
    else CurrentAt(entries[..|entries| - 1], path)
  }

  predicate LostCopy(e: Entry, f: File) {
    e.path == f.path && e.fingerprint == f.fingerprint && e.availability == Missing
  }

  /** The missing entry of a file that was discovered last. */
  function LatestLost(entries: seq<Entry>, f: File): (r: Option<nat>)
    ensures r.Some? ==> r.value < |entries| && LostCopy(entries[r.value], f)
    ensures r.Some? ==> forall i | 0 <= i < |entries| && LostCopy(entries[i], f) :: entries[i].discovered <= entries[r.value].discovered
    ensures r.None? ==> forall i | 0 <= i < |entries| :: !LostCopy(entries[i], f)
  {
    if entries == [] then None
    else
      var n := |entries| - 1;
      var rest := LatestLost(entries[..n], f);
      if LostCopy(entries[n], f) && (rest.None? || entries[n].discovered >= entries[rest.value].discovered) then Some(n) else rest
  }

  // ---- the table a scan calls for ----

  function Seen(e: Entry, now: Moment): Entry {
    e.(availability := Available, lastSeen := now, missingSince := None)
  }

  /** What becomes of an entry once some files of the scan are dealt with. */
  function Fate(was: seq<Entry>, done: seq<File>, i: nat, now: Moment): Entry
    requires i < |was|
  {
    var e, f := was[i], FileAt(done, was[i].path);
    if f.None? then e
    else match e.availability
      case Available => if e.fingerprint == f.value.fingerprint then Seen(e, now) else e.(availability := Superseded, missingSince := Some(now))
      case Missing => if CurrentAt(was, e.path).None? && LatestLost(was, f.value) == Some(i) then Seen(e, now) else e
      case Superseded => e
  }

  /** A file needs a new entry: no available entry of it, and no lost one to bring back. */
  predicate NeedsNew(was: seq<Entry>, f: File) {
    var current := CurrentAt(was, f.path);
    if current.Some? then was[current.value].fingerprint != f.fingerprint else LatestLost(was, f).None?
  }

  function NewEntry(f: File, now: Moment): Entry {
    Entry(f.path, f.fingerprint, Available, now, now, None)
  }

  function News(was: seq<Entry>, done: seq<File>, now: Moment): (r: seq<Entry>)
    ensures forall e | e in r :: exists f | f in done :: NeedsNew(was, f) && e == NewEntry(f, now)
    ensures forall f | f in done && NeedsNew(was, f) :: NewEntry(f, now) in r
  {
    if done == [] then []
    else
      var f := done[|done| - 1];
      News(was, done[..|done| - 1], now) + if NeedsNew(was, f) then [NewEntry(f, now)] else []
  }

  /** How many files take the place of an available entry of the same path. */
  function Replacements(was: seq<Entry>, done: seq<File>): nat {
    if done == [] then 0
    else
      var f := done[|done| - 1];
      Replacements(was, done[..|done| - 1]) + if NeedsNew(was, f) && CurrentAt(was, f.path).Some? then 1 else 0
  }

  function Fates(was: seq<Entry>, done: seq<File>, now: Moment): (r: seq<Entry>)
    ensures |r| == |was|
  {
    seq(|was|, i requires 0 <= i < |was| => Fate(was, done, i, now))
  }

  function Worked(was: seq<Entry>, done: seq<File>, now: Moment): seq<Entry> {
    Fates(was, done, now) + News(was, done, now)
  }

  /** Entries whose path was not seen are missing from now on. */
  function Gone(e: Entry, files: seq<File>, now: Moment): Entry {
    if e.availability == Available && FileAt(files, e.path).None? then e.(availability := Missing, missingSince := Some(now)) else e
  }

  function Reconciled(was: seq<Entry>, files: seq<File>, now: Moment): (r: seq<Entry>)
    ensures |r| == |was| + |News(was, files, now)|
  {
    var worked := Worked(was, files, now);
    seq(|worked|, i requires 0 <= i < |worked| => Gone(worked[i], files, now))
  }

  // ---- what the reconciled table is ----

  predicate Shows(e: Entry, f: File) {
    e.availability == Available && e.path == f.path && e.fingerprint == f.fingerprint
  }

  lemma CurrentIsUnique(entries: seq<Entry>, i: nat)
    requires OnePerPath(entries) && i < |entries| && entries[i].availability == Available
    ensures CurrentAt(entries, entries[i].path) == Some(i)
  {
  }

  lemma CurrentTaken(entries: seq<Entry>, i: nat)
    requires OnePerPath(entries) && i < |entries|
    ensures entries[i].availability == Available ==> CurrentAt(entries, entries[i].path) == Some(i)
  {
    if entries[i].availability == Available {
      CurrentIsUnique(entries, i);
    }
  }

  lemma FileIsUnique(files: seq<File>, f: File)
    requires DistinctPaths(files) && f in files
    ensures FileAt(files, f.path) == Some(f)
  {
  }

  /** Every scanned file is available afterwards. */
  lemma ScannedIsAvailable(was: seq<Entry>, files: seq<File>, now: Moment, f: File) returns (i: nat)
    requires OnePerPath(was) && DistinctPaths(files) && f in files
    ensures i < |Reconciled(was, files, now)| && Shows(Reconciled(was, files, now)[i], f)
  {
    FileIsUnique(files, f);
    var current := CurrentAt(was, f.path);
    if NeedsNew(was, f) {
      var news := News(was, files, now);
      var k :| 0 <= k < |news| && news[k] == NewEntry(f, now);
      i := |was| + k;
      assert Worked(was, files, now)[i] == news[k];
    } else {
      i := if current.Some? then current.value else LatestLost(was, f).value;
      assert Worked(was, files, now)[i] == Fate(was, files, i, now);
    }
  }

  /** Whatever is available afterwards was scanned. */
  lemma AvailableIsScanned(was: seq<Entry>, files: seq<File>, now: Moment, i: nat)
    requires OnePerPath(was) && DistinctPaths(files) && i < |Reconciled(was, files, now)|
    requires Reconciled(was, files, now)[i].availability == Available
    ensures exists f | f in files :: Shows(Reconciled(was, files, now)[i], f)
  {
    var e := Worked(was, files, now)[i];
    var f := FileAt(files, e.path);
    if i < |was| {
      assert e == Fate(was, files, i, now);
      assert Shows(Reconciled(was, files, now)[i], f.value);
    } else {
      assert e in News(was, files, now);
      var g :| g in files && NeedsNew(was, g) && e == NewEntry(g, now);
      assert Shows(Reconciled(was, files, now)[i], g);
    }
  }

  lemma {:induction false} NewsDistinct(was: seq<Entry>, done: seq<File>, now: Moment, i: nat, j: nat)
    requires DistinctPaths(done) && i < j < |News(was, done, now)|
    ensures News(was, done, now)[i].path != News(was, done, now)[j].path
    decreases |done|
  {
    var n := |done| - 1;
    var rest := News(was, done[..n], now);
    if j < |rest| {
      NewsDistinct(was, done[..n], now, i, j);
    } else {
      assert rest[i] in rest;
      var f :| f in done[..n] && NeedsNew(was, f) && rest[i] == NewEntry(f, now);
    }
  }

  /** The entry of a path that is available afterwards, before the scan. */
  lemma KeptOnlyIf(was: seq<Entry>, files: seq<File>, now: Moment, i: nat)
    requires OnePerPath(was) && DistinctPaths(files) && i < |was| && Reconciled(was, files, now)[i].availability == Available
    ensures FileAt(files, was[i].path).Some?
    ensures CurrentAt(was, was[i].path) == Some(i)
            || (CurrentAt(was, was[i].path).None? && LatestLost(was, FileAt(files, was[i].path).value) == Some(i))
    ensures !NeedsNew(was, FileAt(files, was[i].path).value)
  {
    assert Worked(was, files, now)[i] == Fate(was, files, i, now);
    if was[i].availability == Available {
      CurrentIsUnique(was, i);
    }
  }

  lemma NewNeedsNew(was: seq<Entry>, files: seq<File>, now: Moment, j: nat) returns (f: File)
    requires DistinctPaths(files) && |was| <= j < |Reconciled(was, files, now)|
    ensures f in files && NeedsNew(was, f) && Reconciled(was, files, now)[j].path == f.path && FileAt(files, f.path) == Some(f)
  {
    var news := News(was, files, now);
    assert news[j - |was|] in news;
    f :| f in files && NeedsNew(was, f) && news[j - |was|] == NewEntry(f, now);
    FileIsUnique(files, f);
  }

  lemma PathsDiffer(was: seq<Entry>, files: seq<File>, now: Moment, i: nat, j: nat)
    requires OnePerPath(was) && DistinctPaths(files) && i < j < |Reconciled(was, files, now)|
    requires Reconciled(was, files, now)[i].availability == Available && Reconciled(was, files, now)[j].availability == Available
    ensures Reconciled(was, files, now)[i].path != Reconciled(was, files, now)[j].path
  {
    var after := Reconciled(was, files, now);
    if i < |was| {
      KeptOnlyIf(was, files, now, i);
      HistoryIsKept(was, files, now, i);
      if j < |was| {
        KeptOnlyIf(was, files, now, j);
        HistoryIsKept(was, files, now, j);
      } else {
        var f := NewNeedsNew(was, files, now, j);
      }
    } else {
      NewsDistinct(was, files, now, i - |was|, j - |was|);
      assert after[i].path == News(was, files, now)[i - |was|].path;
      assert after[j].path == News(was, files, now)[j - |was|].path;
    }
  }

  /** The unique index is never violated. */
  lemma StillOnePerPath(was: seq<Entry>, files: seq<File>, now: Moment)
    requires OnePerPath(was) && DistinctPaths(files)
    ensures OnePerPath(Reconciled(was, files, now))
  {
    var after := Reconciled(was, files, now);
    forall i, j | 0 <= i < j < |after| && after[i].availability == Available && after[j].availability == Available
      ensures after[i].path != after[j].path
    {
      PathsDiffer(was, files, now, i, j);
    }
  }

  /** Entries are never lost or rewritten, and a superseded one never comes back. */
  lemma HistoryIsKept(was: seq<Entry>, files: seq<File>, now: Moment, i: nat)
    requires i < |was|
    ensures var e := Reconciled(was, files, now)[i];
      && e.path == was[i].path && e.fingerprint == was[i].fingerprint && e.discovered == was[i].discovered
      && (was[i].availability == Superseded ==> e == was[i])
  {
    assert Worked(was, files, now)[i] == Fate(was, files, i, now);
  }

  // ---- what becomes of each entry ----

  /** A path that the scan does not hold: an available entry goes missing, any other stays as it is. */
  lemma UnseenBecomes(was: seq<Entry>, files: seq<File>, now: Moment, i: nat)
    requires i < |was| && forall f | f in files :: f.path != was[i].path
    ensures Reconciled(was, files, now)[i]
         == if was[i].availability == Available then was[i].(availability := Missing, missingSince := Some(now)) else was[i]
  {
    assert Worked(was, files, now)[i] == Fate(was, files, i, now);
  }

  /** An available entry whose path was scanned: seen again, or superseded if the file is another. */
  lemma AvailableBecomes(was: seq<Entry>, files: seq<File>, now: Moment, i: nat, f: File)
    requires OnePerPath(was) && DistinctPaths(files) && i < |was| && f in files && f.path == was[i].path
    requires was[i].availability == Available
    ensures Reconciled(was, files, now)[i]
         == if was[i].fingerprint == f.fingerprint then was[i].(lastSeen := now, missingSince := None)
            else was[i].(availability := Superseded, missingSince := Some(now))
  {
    FileIsUnique(files, f);
    assert Worked(was, files, now)[i] == Fate(was, files, i, now);
  }

  /** The path of a file has no available entry. */
  predicate Vacant(was: seq<Entry>, f: File) {
    forall i | 0 <= i < |was| :: was[i].path == f.path ==> was[i].availability != Available
  }

  /**
   A lost copy that returns gets its old entry back: of the missing entries of the same file one
   discovered last is available again, and nothing else happens at its path.
   */
  lemma LostCopyReturns(was: seq<Entry>, files: seq<File>, now: Moment, f: File, lost: nat) returns (i: nat)
    requires OnePerPath(was) && DistinctPaths(files) && f in files && Vacant(was, f)
    requires lost < |was| && was[lost].path == f.path && was[lost].fingerprint == f.fingerprint && was[lost].availability == Missing
    ensures i < |was| && was[i].path == f.path && was[i].fingerprint == f.fingerprint && was[i].availability == Missing
    ensures was[i].discovered >= was[lost].discovered
    ensures Reconciled(was, files, now)[i] == Entry(f.path, f.fingerprint, Available, was[i].discovered, now, None)
    ensures forall j | 0 <= j < |Reconciled(was, files, now)| && j != i && Reconciled(was, files, now)[j].path == f.path ::
              j < |was| && Reconciled(was, files, now)[j] == was[j]
  {
    FileIsUnique(files, f);
    assert CurrentAt(was, f.path).None? && LostCopy(was[lost], f);
    i := LatestLost(was, f).value;
    var after := Reconciled(was, files, now);
    assert Worked(was, files, now)[i] == Fate(was, files, i, now);
    forall j | 0 <= j < |after| && j != i && after[j].path == f.path ensures j < |was| && after[j] == was[j] {
      if j >= |was| {
        var g := NewNeedsNew(was, files, now, j);
      } else {
        assert Worked(was, files, now)[j] == Fate(was, files, j, now);
      }
    }
  }

  /** A file no entry of which is known, or that takes the place of another, gets a new entry. */
  lemma NewFileGetsEntry(was: seq<Entry>, files: seq<File>, now: Moment, f: File) returns (j: nat)
    requires OnePerPath(was) && DistinctPaths(files) && f in files
    requires forall i | 0 <= i < |was| && was[i].path == f.path && was[i].fingerprint == f.fingerprint ::
               was[i].availability == Superseded || (was[i].availability == Missing && !Vacant(was, f))
    ensures |was| <= j < |Reconciled(was, files, now)|
    ensures Reconciled(was, files, now)[j] == Entry(f.path, f.fingerprint, Available, now, now, None)
  {
    FileIsUnique(files, f);
    assert NeedsNew(was, f);
    var news := News(was, files, now);
    var k :| 0 <= k < |news| && news[k] == NewEntry(f, now);
    j := |was| + k;
    assert Worked(was, files, now)[j] == news[k];
  }

  /** Nothing else gets one. */
  lemma NewEntryIsOfNewFile(was: seq<Entry>, files: seq<File>, now: Moment, j: nat) returns (f: File)
    requires OnePerPath(was) && DistinctPaths(files) && |was| <= j < |Reconciled(was, files, now)|
    ensures f in files && Reconciled(was, files, now)[j] == Entry(f.path, f.fingerprint, Available, now, now, None)
    ensures forall i | 0 <= i < |was| && was[i].path == f.path && was[i].fingerprint == f.fingerprint ::
              was[i].availability == Superseded || (was[i].availability == Missing && !Vacant(was, f))
  {
    f := NewNeedsNew(was, files, now, j);
    GoneAlready(was, files, now, j);
    var news := News(was, files, now);
    assert news[j - |was|] in news;
    var g :| g in files && NeedsNew(was, g) && news[j - |was|] == NewEntry(g, now);
    FileIsUnique(files, g);
    forall i | 0 <= i < |was| && was[i].path == f.path && was[i].fingerprint == f.fingerprint
      ensures was[i].availability == Superseded || (was[i].availability == Missing && !Vacant(was, f))
    {
      CurrentTaken(was, i);
      assert was[i].availability == Missing ==> LostCopy(was[i], f);
    }
  }

  /** Other missing entries stay missing. */
  lemma MissingStays(was: seq<Entry>, files: seq<File>, now: Moment, i: nat, f: File)
    requires OnePerPath(was) && DistinctPaths(files) && i < |was| && f in files && f.path == was[i].path
    requires was[i].availability == Missing && (was[i].fingerprint != f.fingerprint || !Vacant(was, f))
    ensures Reconciled(was, files, now)[i] == was[i]
  {
    FileIsUnique(files, f);
    assert Worked(was, files, now)[i] == Fate(was, files, i, now);
  }

  /** The entries that the scan supersedes. */
  function SupersededNow(was: seq<Entry>, after: seq<Entry>): set<nat> {
    set i: nat | i < |was| && i < |after| && was[i].availability == Available && after[i].availability == Superseded
  }

  /** The table already shows the scan. */
  ghost predicate UpToDate(entries: seq<Entry>, files: seq<File>) {
    && (forall f | f in files :: exists i | 0 <= i < |entries| :: Shows(entries[i], f))
    && (forall i | 0 <= i < |entries| && entries[i].availability == Available :: exists f | f in files :: Shows(entries[i], f))
  }

  lemma {:induction false} NoNews(was: seq<Entry>, done: seq<File>, now: Moment)
    requires forall f | f in done :: !NeedsNew(was, f)
    ensures News(was, done, now) == []
  {
    if done != [] {
      assert forall f | f in done[..|done| - 1] :: f in done;
      NoNews(was, done[..|done| - 1], now);
    }
  }

  /** An unchanged share adds, changes and loses nothing. */
  lemma RescanChangesNothing(was: seq<Entry>, files: seq<File>, now: Moment)
    requires OnePerPath(was) && DistinctPaths(files) && UpToDate(was, files)
    ensures News(was, files, now) == [] && |Reconciled(was, files, now)| == |was|
    ensures forall i | 0 <= i < |was| ::
              Reconciled(was, files, now)[i] == if was[i].availability == Available then Seen(was[i], now) else was[i]
  {
    forall f | f in files ensures !NeedsNew(was, f) && CurrentAt(was, f.path).Some? {
      var i :| 0 <= i < |was| && Shows(was[i], f);
      CurrentIsUnique(was, i);
    }
    NoNews(was, files, now);
    forall i | 0 <= i < |was|
      ensures Reconciled(was, files, now)[i] == if was[i].availability == Available then Seen(was[i], now) else was[i]
    {
      assert Worked(was, files, now)[i] == Fate(was, files, i, now);
      if was[i].availability == Available {
        var f :| f in files && Shows(was[i], f);
        FileIsUnique(files, f);
      }
    }
  }

  /** After a scan the table shows it, so scanning the same share again changes nothing. */
  lemma ScanTwice(was: seq<Entry>, files: seq<File>, now: Moment, later: Moment)
    requires OnePerPath(was) && DistinctPaths(files)
    ensures UpToDate(Reconciled(was, files, now), files)
    ensures var once := Reconciled(was, files, now);
      Reconciled(once, files, later) == seq(|once|, i requires 0 <= i < |once| =>
        if once[i].availability == Available then Seen(once[i], later) else once[i])
  {
    var once := Reconciled(was, files, now);
    StillOnePerPath(was, files, now);
    forall f | f in files ensures exists i | 0 <= i < |once| :: Shows(once[i], f) {
      var i := ScannedIsAvailable(was, files, now, f);
    }
    forall i | 0 <= i < |once| && once[i].availability == Available ensures exists f | f in files :: Shows(once[i], f) {
      AvailableIsScanned(was, files, now, i);
    }
    RescanChangesNothing(once, files, later);
  }

  // ---- the counter of replaced files ----

  /** The available entries that one of these files takes the place of. */
  function Displaced(was: seq<Entry>, done: seq<File>): set<nat> {
    set i: nat | i < |was| && was[i].availability == Available
                 && FileAt(done, was[i].path).Some? && FileAt(done, was[i].path).value.fingerprint != was[i].fingerprint
  }

  lemma OneMoreDisplaced(was: seq<Entry>, done: seq<File>, f: File)
    requires OnePerPath(was) && FileAt(done, f.path).None?
    ensures var current := CurrentAt(was, f.path);
      && Displaced(was, done + [f]) == Displaced(was, done) + (if NeedsNew(was, f) && current.Some? then {current.value} else {})
      && (current.Some? ==> current.value !in Displaced(was, done))
  {
    forall i: nat | i < |was| ensures FileAt(done + [f], was[i].path) == if was[i].path == f.path then Some(f) else FileAt(done, was[i].path) {
      FileAtMore(done, f, was[i].path);
    }
    forall i: nat | i < |was| && was[i].availability == Available ensures CurrentAt(was, was[i].path) == Some(i) {
      CurrentIsUnique(was, i);
    }
  }

  lemma {:induction false} ReplacementsAreDisplaced(was: seq<Entry>, done: seq<File>)
    requires OnePerPath(was) && DistinctPaths(done)
    ensures |Displaced(was, done)| == Replacements(was, done)
  {
    if done == [] {
      assert Displaced(was, done) == {};
    } else {
      var n := |done| - 1;
      ReplacementsAreDisplaced(was, done[..n]);
      NotBefore(done, n);
      OneMoreDisplaced(was, done[..n], done[n]);
      assert done[..n] + [done[n]] == done;
    }
  }

  /** The scan counts as changed exactly the entries it supersedes. */
  lemma ChangedAreSuperseded(was: seq<Entry>, files: seq<File>, now: Moment)
    requires OnePerPath(was) && DistinctPaths(files)
    ensures |SupersededNow(was, Reconciled(was, files, now))| == Replacements(was, files)
  {
    var after := Reconciled(was, files, now);
    forall i: nat | i < |was| && was[i].availability == Available
      ensures after[i].availability == Superseded <==> i in Displaced(was, files)
    {
      assert Worked(was, files, now)[i] == Fate(was, files, i, now);
    }
    assert SupersededNow(was, after) == Displaced(was, files);
    ReplacementsAreDisplaced(was, files);
  }

  // ---- the transaction ----

  /** The lookup of a lost copy is not disturbed by the files dealt with before. */
  lemma {:induction false} SameLost(a: seq<Entry>, b: seq<Entry>, f: File)
    requires |a| <= |b|
    requires forall i | 0 <= i < |a| :: LostCopy(a[i], f) == LostCopy(b[i], f) && a[i].discovered == b[i].discovered
    requires forall i | |a| <= i < |b| :: !LostCopy(b[i], f)
    ensures LatestLost(a, f) == LatestLost(b, f)
    decreases |b|
  {
    if b != [] {
      var n := |b| - 1;
      if |a| == |b| {
        SameLost(a[..n], b[..n], f);
      } else {
        SameLost(a, b[..n], f);
      }
    }
  }

  lemma LostAsBefore(was: seq<Entry>, done: seq<File>, f: File, now: Moment)
    requires FileAt(done, f.path).None?
    ensures LatestLost(Worked(was, done, now), f) == LatestLost(was, f)
  {
    var worked, news := Worked(was, done, now), News(was, done, now);
    forall i | 0 <= i < |was| ensures LostCopy(was[i], f) == LostCopy(worked[i], f) && was[i].discovered == worked[i].discovered {
      assert worked[i] == Fate(was, done, i, now);
    }
    forall i | |was| <= i < |worked| ensures !LostCopy(worked[i], f) {
      assert news[i - |was|] in news;
    }
    SameLost(was, worked, f);
  }

  lemma FileAtMore(done: seq<File>, f: File, path: Path)
    requires FileAt(done, f.path).None?
    ensures FileAt(done + [f], path) == if path == f.path then Some(f) else FileAt(done, path)
  {
    assert (done + [f])[..|done|] == done;
  }

  /** The entry that a file changes, if any, and what it becomes. */
  function Touched(was: seq<Entry>, f: File, now: Moment): (r: Option<(nat, Entry)>)
    ensures r.Some? ==> r.value.0 < |was| && was[r.value.0].path == f.path
  {
    var current, lost := CurrentAt(was, f.path), LatestLost(was, f);
    if current.Some? then
      var e := was[current.value];
      Some((current.value,
            if e.fingerprint == f.fingerprint then Seen(e, now) else e.(availability := Superseded, missingSince := Some(now))))
    else if lost.Some? then Some((lost.value, Seen(was[lost.value], now)))
    else None
  }

  function Put(entries: seq<Entry>, touched: Option<(nat, Entry)>): seq<Entry>
    requires touched.Some? ==> touched.value.0 < |entries|
  {
    if touched.Some? then entries[touched.value.0 := touched.value.1] else entries
  }

  lemma FateOf(was: seq<Entry>, done: seq<File>, f: File, i: nat, now: Moment)
    requires OnePerPath(was) && FileAt(done, f.path).None? && i < |was|
    ensures was[i].path == f.path ==> Fate(was, done, i, now) == was[i]
    ensures Fate(was, done + [f], i, now) ==
            if was[i].path != f.path then Fate(was, done, i, now)
            else if CurrentAt(was, f.path) == Some(i) then
              if was[i].fingerprint == f.fingerprint then Seen(was[i], now) else was[i].(availability := Superseded, missingSince := Some(now))
            else if CurrentAt(was, f.path).None? && LatestLost(was, f) == Some(i) then Seen(was[i], now)
            else was[i]
  {
    FileAtMore(done, f, was[i].path);
    if was[i].availability == Available {
      CurrentIsUnique(was, i);
    }
  }

  lemma FatesMove(was: seq<Entry>, done: seq<File>, f: File, now: Moment)
    requires OnePerPath(was) && FileAt(done, f.path).None?
    ensures Put(Fates(was, done, now), Touched(was, f, now)) == Fates(was, done + [f], now)
  {
    var next := Put(Fates(was, done, now), Touched(was, f, now));
    forall i | 0 <= i < |was| ensures next[i] == Fates(was, done + [f], now)[i] {
      FateOf(was, done, f, i, now);
    }
  }

  /** One more file dealt with. */
  lemma OneMoreFile(was: seq<Entry>, done: seq<File>, f: File, now: Moment)
    requires OnePerPath(was) && FileAt(done, f.path).None?
    ensures Worked(was, done + [f], now)
      == Put(Worked(was, done, now), Touched(was, f, now)) + if NeedsNew(was, f) then [NewEntry(f, now)] else []
  {
    FatesMove(was, done, f, now);
    NewsGrows(was, done, f, now);
    PutAppend(Fates(was, done, now), News(was, done, now), if NeedsNew(was, f) then [NewEntry(f, now)] else [], Touched(was, f, now));
  }

  lemma PutAppend(a: seq<Entry>, b: seq<Entry>, c: seq<Entry>, touched: Option<(nat, Entry)>)
    requires touched.Some? ==> touched.value.0 < |a|
    ensures Put(a + b, touched) + c == Put(a, touched) + (b + c)
  {
  }

  lemma TouchedAsBefore(was: seq<Entry>, done: seq<File>, f: File, now: Moment)
    requires FileAt(done, f.path).None?
    ensures Touched(was, f, now).Some? ==> Worked(was, done, now)[Touched(was, f, now).value.0] == was[Touched(was, f, now).value.0]
  {
    var touched := Touched(was, f, now);
    if touched.Some? {
      var k := touched.value.0;
      assert Worked(was, done, now)[k] == Fate(was, done, k, now);
    }
  }

  lemma GoneAlready(was: seq<Entry>, files: seq<File>, now: Moment, i: nat)
    requires |was| <= i < |Worked(was, files, now)|
    ensures Reconciled(was, files, now)[i] == Worked(was, files, now)[i]
  {
    var news := News(was, files, now);
    assert news[i - |was|] in news;
  }

  datatype Counters = Counters(added: nat, changed: nat)
  datatype ScanResult = ScanResult(discovered: nat, added: nat, changed: nat, missing: nat)

  /** The entries that are missing now, whenever they went missing. */
  function MissingPlaces(entries: seq<Entry>): set<nat> {
    set i: nat | i < |entries| && entries[i].availability == Missing
  }

  class Source {
    var entries: seq<Entry>

    predicate Valid()
      reads this
    {
      OnePerPath(entries)
    }

    constructor ()
      ensures Valid() && entries == []
    {
      entries := [];
    }

    /** One file of the scan: seen again, brought back, replaced or new. */
    method ApplyOne(start: seq<Entry>, f: File, now: Moment, ghost done: seq<File>) returns (added: nat, changed: nat)
      requires OnePerPath(start) && FileAt(done, f.path).None? && entries == Worked(start, done, now)
      modifies this
      ensures entries == Worked(start, done + [f], now)
      ensures added + changed == if NeedsNew(start, f) then 1 else 0
      ensures changed == if NeedsNew(start, f) && CurrentAt(start, f.path).Some? then 1 else 0
    {
      LostAsBefore(start, done, f, now);
      OneMoreFile(start, done, f, now);
      TouchedAsBefore(start, done, f, now);
      added, changed := 0, 0;
      var existing := CurrentAt(start, f.path);
      var recovered := if existing.None? then LatestLost(entries, f) else None;
      if existing.Some? && start[existing.value].fingerprint == f.fingerprint {
        entries := entries[existing.value := Seen(entries[existing.value], now)];
      } else if recovered.Some? {
        entries := entries[recovered.value := Seen(entries[recovered.value], now)];
      } else {
        if existing.Some? {
          entries := entries[existing.value := entries[existing.value].(availability := Superseded, missingSince := Some(now))];
          changed := 1;
        } else {
          added := 1;
        }
        entries := entries + [NewEntry(f, now)];
      }
    }

    /** The files of the scan, one after the other; None if a statement fails. */
    method Apply(files: seq<File>, now: Moment, failsAt: Option<nat>) returns (r: Option<Counters>)
      requires Valid() && DistinctPaths(files)
      modifies this
      ensures r.None? <==> failsAt.Some? && failsAt.value < |files|
      ensures r.Some? ==> entries == Worked(old(entries), files, now)
      ensures r.Some? ==> r.value.added + r.value.changed == |News(old(entries), files, now)|
      ensures r.Some? ==> r.value.changed == Replacements(old(entries), files)
    {
      hide Worked, News, Replacements, FileAt, OnePerPath, NeedsNew, CurrentAt, DistinctPaths;
      var start := entries;
      var added, changed := 0, 0;
      NoFileYet(start, now);
      assert files[..0] == [];
      for k := 0 to |files|
        invariant failsAt.Some? ==> k <= failsAt.value
        invariant entries == Worked(start, files[..k], now)
        invariant added + changed == |News(start, files[..k], now)| && changed == Replacements(start, files[..k])
      {
        if failsAt == Some(k) {
          return None;
        }
        NextFile(start, files, k, now);
        var a, c := ApplyOne(start, files[k], now, files[..k]);
        added, changed := added + a, changed + c;
      }
      assert files[..|files|] == files;
      return Some(Counters(added, changed));
    }

    /** What was available at the start and not seen is missing. */
    method MarkMissing(files: seq<File>, now: Moment, start: seq<Entry>)
      requires entries == Worked(start, files, now)
      modifies this
      ensures entries == Reconciled(start, files, now)
    {
      ghost var worked := entries;
      for k := 0 to |start|
        invariant |entries| == |worked|
        invariant forall i | 0 <= i < |worked| :: entries[i] == if i < k then Gone(worked[i], files, now) else worked[i]
      {
        assert worked[k] == Fate(start, files, k, now);
        if start[k].availability == Available && FileAt(files, start[k].path).None? && entries[k].availability == Available {
          entries := entries[k := entries[k].(availability := Missing, missingSince := Some(now))];
        }
      }
      forall i | |start| <= i < |worked| ensures Gone(worked[i], files, now) == worked[i] {
        GoneAlready(start, files, now, i);
      }
    }

    /**
     `reconcile_source`.  A scan that fails, or a statement that does, among those of the files or
     after them, leaves the entries alone; otherwise the available entries are exactly the files of
     the scan.
     */
    method Reconcile(scan: Option<seq<File>>, now: Moment, failsAt: Option<nat>) returns (r: Option<ScanResult>)
      requires Valid() && (scan.Some? ==> DistinctPaths(scan.value))
      modifies this
      ensures Valid()
      ensures r.Some? <==> scan.Some? && (failsAt.None? || failsAt.value > |scan.value|)
      ensures entries == if r.Some? then Reconciled(old(entries), scan.value, now) else old(entries)
      ensures r.Some? ==> UpToDate(entries, scan.value)
      ensures r.Some? ==> r.value.discovered == |scan.value| && r.value.changed == |SupersededNow(old(entries), entries)|
      ensures r.Some? ==> r.value.added + r.value.changed == |entries| - |old(entries)|
      ensures r.Some? ==> r.value.missing == |MissingPlaces(entries)|
    {
      if scan.None? {
        return None;
      }
      var start := entries;
      var counters := Apply(scan.value, now, failsAt);
      if counters.None? || failsAt == Some(|scan.value|) {
        entries := start;
        return None;
      }
      MarkMissing(scan.value, now, start);
      StillOnePerPath(start, scan.value, now);
      ScanTwice(start, scan.value, now, now);
      ChangedAreSuperseded(start, scan.value, now);
      return Some(ScanResult(|scan.value|, counters.value.added, counters.value.changed, |MissingPlaces(entries)|));
    }
  }

  lemma NotBefore(files: seq<File>, k: nat)
    requires DistinctPaths(files) && k < |files|
    ensures FileAt(files[..k], files[k].path).None?
  {
    assert forall i | 0 <= i < k :: files[..k][i].path != files[k].path;
  }

  lemma NoFileYet(was: seq<Entry>, now: Moment)
    ensures Worked(was, [], now) == was && News(was, [], now) == [] && Replacements(was, []) == 0
  {
    var worked := Worked(was, [], now);
    forall i | 0 <= i < |was| ensures worked[i] == was[i] {
      assert worked[i] == Fate(was, [], i, now);
    }
  }

  /** The next file of the scan: nothing came before it at its path, and what it adds to the counters. */
  lemma NextFile(was: seq<Entry>, files: seq<File>, k: nat, now: Moment)
    requires DistinctPaths(files) && k < |files|
    ensures files[..k + 1] == files[..k] + [files[k]] && FileAt(files[..k], files[k].path).None?
    ensures |News(was, files[..k + 1], now)| == |News(was, files[..k], now)| + if NeedsNew(was, files[k]) then 1 else 0
    ensures Replacements(was, files[..k + 1])
         == Replacements(was, files[..k]) + if NeedsNew(was, files[k]) && CurrentAt(was, files[k].path).Some? then 1 else 0
  {
    var done := files[..k];
    assert files[..k + 1] == done + [files[k]];
    NotBefore(files, k);
    NewsGrows(was, done, files[k], now);
    assert (done + [files[k]])[..|done|] == done;
  }

  lemma NewsGrows(was: seq<Entry>, done: seq<File>, f: File, now: Moment)
    ensures News(was, done + [f], now) == News(was, done, now) + if NeedsNew(was, f) then [NewEntry(f, now)] else []
  {
    assert (done + [f])[..|done|] == done;
  }
}
