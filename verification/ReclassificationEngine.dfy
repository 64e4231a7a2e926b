/**
 The reclassification saga of one document over its four stores.  Every store operation takes
 its fate from `schedule`: it may succeed, fail before or after its write, tear a payload write,
 or be the point at which the process dies; request handlers act between operations.
 */
module ReclassificationEngine {
  import opened Prelude
  import opened ReclassificationPlan

  /** Exceptions propagate as Raised and are caught where the code catches them; Crashed never is. */
  datatype Outcome<+T> = Done(value: T) | Raised(code: Code) | Crashed {
    predicate IsFailure() { !Done? }

    function PropagateFailure<U>(): Outcome<U>
      requires !Done?
    {
      match this
      case Raised(code) => Raised(code)
      case Crashed => Crashed
    }

    function Extract(): T
      requires Done?
    {
      value
    }
  }

  datatype Fault = Fine | FailBefore | FailAfter | CrashBefore | CrashAfter | Tear(hit: set<PointId>)

  /** What request handlers may do meanwhile; each respects the guards about active jobs. */
  datatype Action =
    | EditCategory(category: CategoryId, name: string, active: bool)
    | ChangeOther(item: ItemId, row: Item)
    | ChangeOwn(row: Item, points: seq<Point>, parents: seq<Parent>)

  datatype Event = Strike(fault: Fault) | Meanwhile(action: Action)

  datatype Command =
    | Submit(target: CategoryId, expected: VersionId, allowed: bool)
    | Work
    | Boot

  predicate Applies(f: Fault) { f in {Fine, FailAfter, CrashAfter} }

  function Report<T>(f: Fault, value: T): Outcome<T> {
    match f
    case Fine => Done(value)
    case CrashBefore => Crashed
    case CrashAfter => Crashed
    case _ => Raised(StoreFailure)
  }

  /** No torn write and nobody else at work: only failures and crashes. */
  predicate Calm(schedule: seq<Event>) {
    forall i | 0 <= i < |schedule| :: schedule[i].Strike? && !schedule[i].fault.Tear?
  }

  function Verified(points: seq<Point>, plan: Plan, tag: Tag): Outcome<()> {
    if points == [] then Raised(IndexMissing)
    else if forall i | 0 <= i < |points| :: points[i].item == plan.item && points[i].tag == tag then Done(())
    else Raised(IndexMismatch)
  }

  /** The verdict on one finished job. */
  datatype Ending = Ending(agreed: bool, job: Job, holdings: Holdings)

  /** What `_commit_item` finds in order: the categories as at creation, and no namesake in the target. */
  predicate MayCommit(plan: Plan, row: Item, categories: map<CategoryId, Category>, others: map<ItemId, Item>) {
    && row.category == plan.sourceId
    && plan.sourceId in categories && categories[plan.sourceId].stamp == plan.source
    && plan.targetId in categories && categories[plan.targetId] == Category(plan.target, true)
    && forall k | k in others && !others[k].archived :: others[k].category != plan.targetId || others[k].filename != row.filename
  }

  /** No other unarchived item of the category has the item's file name. */
  predicate OwnName(row: Item, others: map<ItemId, Item>) {
    forall k | k in others && !others[k].archived :: others[k].category != row.category || others[k].filename != row.filename
  }

  /** The job's row tells every step it took. */
  predicate Accounted(job: Job, points: seq<Point>, parents: seq<Parent>) {
    && job.candidate.Some? && job.pointCount == |points| && job.parentCount == |parents|
    && job.qdrantApplied && job.parentsApplied && job.itemCommitted && job.viewActivated && job.error.None?
  }

  /** Why the final transaction refuses an item that is still at its source. */
  function Refusal(plan: Plan, categories: map<CategoryId, Category>, others: map<ItemId, Item>): Code {
    if plan.targetId !in categories || !categories[plan.targetId].active then CategoryNotFound
    else if categories[plan.targetId].stamp != plan.target then VersionConflict
    else if plan.sourceId !in categories || categories[plan.sourceId].stamp != plan.source then VersionConflict
    else FilenameConflict
  }

  /** What a request for a reclassification asks of the item and the target. */
  predicate MaySubmit(row: Item, categories: map<CategoryId, Category>, others: map<ItemId, Item>, target: CategoryId, expected: VersionId) {
    && row.category in categories && !row.archived
    && row.newest == expected && row.head == Some(expected) && row.published && !row.indexing
    && row.category != target && target in categories && categories[target].active
    && forall k | k in others && !others[k].archived :: others[k].category != target || others[k].filename != row.filename
  }

  /** What each refusal of such a request says. */
  predicate Declined(allowed: bool, busy: bool, row: Item, categories: map<CategoryId, Category>, others: map<ItemId, Item>,
                     target: CategoryId, expected: VersionId, code: Code) {
    match code
    case Forbidden => !allowed
    case ItemNotFound => row.category !in categories || row.archived
    case VersionConflict => row.newest != expected
    case NotPublished => row.head != Some(expected) || !row.published
    case SameCategory => row.category == target
    case CategoryNotFound => target !in categories || !categories[target].active
    case InProgress => busy
    case PublicationInProgress => row.indexing
    case FilenameConflict => exists k | k in others && !others[k].archived :: others[k].category == target && others[k].filename == row.filename
    case _ => false
  }

  class Engine {
    const item: ItemId
    /** The item's newest job; older ones are terminal and never read again. */
    var job: Option<Job>
    var categories: map<CategoryId, Category>
    /** The item's row, and its published version's index points and parent rows. */
    var row: Item
    var points: seq<Point>
    var parents: seq<Parent>
    var others: map<ItemId, Item>
    var current: Option<View>
    var previous: Option<View>
    var generations: map<GenerationId, View>
    var nextGeneration: GenerationId
    var schedule: seq<Event>
    /** The four stores agreed when the newest job was created. */
    ghost var agreed: bool
    /** What the stores held when each job took its terminal status. */
    ghost var endings: seq<Ending>

    /** Any stores to start from, and nothing under way; `schedule` is what is going to happen. */
    constructor (item: ItemId, row: Item, points: seq<Point>, parents: seq<Parent>, others: map<ItemId, Item>,
                 categories: map<CategoryId, Category>, current: Option<View>, schedule: seq<Event>)
      requires item !in others
      ensures Healthy() && this.item == item && this.job.None? && this.schedule == schedule
      ensures Here() == Holdings(points, parents, row, current) && this.others == others && this.categories == categories
    {
      this.item, this.row, this.points, this.parents, this.others := item, row, points, parents, others;
      this.categories, this.current, this.previous := categories, current, None;
      this.job, generations, nextGeneration, this.schedule := None, map[], 0, schedule;
      agreed, endings := false, [];
    }

    ghost function Here(): Holdings
      reads this
    {
      Holdings(points, parents, row, current)
    }

    predicate Busy()
      reads this`job
    {
      job.Some? && Active(job.value)
    }

    predicate Running()
      reads this`job
    {
      Busy() && job.value.status != Pending
    }

    ghost predicate Healthy()
      reads this
    {
      && (forall g | g in generations :: g < nextGeneration)
      && item !in others
      && (forall e | e in endings :: Sound(e.agreed, e.job, e.holdings))
      && (job.Some? ==> job.value.plan.item == item)
      && (Busy() ==> UnderWay(agreed, job.value, Here()))
      && (job.Some? && !Busy() ==> endings != [] && endings[|endings| - 1].job == job.value)
    }

    /** What interference does to the stores of an active job: nothing. */
    twostate predicate Undisturbed()
      reads this
    {
      && (Busy() ==> row == old(row) && points == old(points) && parents == old(parents))
      && (item !in old(others) ==> item !in others)
      && (Calm(old(schedule)) ==>
            Calm(schedule) && categories == old(categories) && others == old(others)
            && row == old(row) && points == old(points) && parents == old(parents))
      && (old(schedule) == [] ==> schedule == [])
    }

    method Interfere(action: Action)
      modifies this`categories, this`row, this`points, this`parents, this`others
      ensures Busy() ==> row == old(row) && points == old(points) && parents == old(parents)
      ensures item !in old(others) ==> item !in others
    {
      match action
      case EditCategory(id, name, active) =>
        if id in categories {
          var stamp := categories[id].stamp;
          categories := categories[id := Category(Stamp(Tag(stamp.tag.key, name), stamp.version + 1), active)];
        }
      case ChangeOther(other, r) =>
        if other != item {
          others := others[other := r];
        }
      case ChangeOwn(r, ps, qs) =>
        if !Busy() {
          row, points, parents := r, ps, qs;
        }
    }

    /** Let the handlers scheduled so far act, then draw the fate of the next operation. */
    method Draw() returns (f: Fault)
      modifies this`schedule, this`categories, this`row, this`points, this`parents, this`others
      ensures Undisturbed()
      ensures Calm(old(schedule)) ==> !f.Tear?
      ensures old(schedule) == [] ==> f == Fine
    {
      while schedule != [] && schedule[0].Meanwhile?
        invariant Undisturbed()
        decreases |schedule|
      {
        var action := schedule[0].action;
        schedule := schedule[1..];
        Interfere(action);
      }
      if schedule == [] {
        f := Fine;
      } else {
        f := schedule[0].fault;
        schedule := schedule[1..];
      }
    }

    // ---- job rows ----

    /** One UPDATE of the job's row. */
    method UpdateJob(next: Job) returns (o: Outcome<()>)
      requires Healthy() && Busy()
      requires next.plan == job.value.plan && next.status != Pending
      requires Active(next) && agreed ==> InFlight(next.plan, Here())
      requires !Active(next) ==> Sound(agreed, next, Here())
      modifies this`schedule, this`categories, this`row, this`points, this`parents, this`others, this`job, this`endings
      ensures Healthy() && Here() == old(Here())
      ensures Calm(old(schedule)) ==> Calm(schedule) && categories == old(categories) && others == old(others)
      ensures job == Some(next) || (!o.Done? && job == old(job))
      ensures endings == if !Active(next) && job == Some(next) then old(endings) + [Ending(agreed, next, Here())] else old(endings)
      ensures old(schedule) == [] ==> o.Done? && schedule == []
    {
      var f := Draw();
      if Applies(f) {
        job := Some(next);
        if !Active(next) {
          endings := endings + [Ending(agreed, next, Here())];
        }
      }
      o := Report(f, ());
    }

    // ---- index points ----

    /** Scroll through all points of the version, a page at a time. */
    method FetchPoints() returns (o: Outcome<seq<Point>>)
      requires Busy()
      modifies this`schedule, this`categories, this`row, this`points, this`parents, this`others
      ensures Undisturbed()
      ensures o.Done? ==> o.value == points
      ensures old(schedule) == [] ==> o.Done?
    {
      var fetched: seq<Point> := [];
      var offset: Option<nat> := Some(0);
      while offset.Some?
        invariant Undisturbed()
        invariant offset.Some? ==> offset.value <= |points| && fetched == points[..offset.value]
        invariant offset.None? ==> fetched == points
        decreases if offset.Some? then 1 + |old(points)| - offset.value else 0
      {
        var f := Draw();
        var end := offset.value + 512;
        var page := if end < |points| then points[offset.value..end] else points[offset.value..];
        var next := if end < |points| then Some(end) else None;
        var _ :- Report(f, ());
        fetched := fetched + page;
        offset := next;
      }
      o := Done(fetched);
    }

    /** One set_payload request; a torn one reaches only some of the points. */
    method SetPayload(ids: set<PointId>, tag: Tag) returns (o: Outcome<()>, ghost hit: set<PointId>)
      requires Healthy() && Running() && tag in {job.value.plan.source.tag, job.value.plan.target.tag}
      modifies this`schedule, this`categories, this`row, this`points, this`parents, this`others
      ensures Healthy() && Here() == old(Here()).(points := Retag(old(points), hit, tag))
      ensures o.Done? ==> hit == ids
      ensures Calm(old(schedule)) ==> Calm(schedule) && categories == old(categories) && others == old(others) && hit in {{}, ids}
      ensures old(schedule) == [] ==> o.Done? && schedule == []
    {
      var f := Draw();
      var reached := if Applies(f) then ids else if f.Tear? then f.hit * ids else {};
      points := Retag(points, reached, tag);
      o, hit := Report(f, ()), reached;
    }

    /** Retag all points after checking them, and check them again. */
    method PatchPoints(plan: Plan, restore: bool) returns (o: Outcome<nat>)
      requires Healthy() && Running() && job.value.plan == plan
      modifies this`schedule, this`categories, this`row, this`points, this`parents, this`others
      ensures Healthy() && Here() == old(Here()).(points := points)
      ensures o.Done? ==> PointsAt(plan, points, if restore then plan.source.tag else plan.target.tag) && o.value == |points|
      ensures Calm(old(schedule)) ==> Calm(schedule) && categories == old(categories) && others == old(others)
      ensures Calm(old(schedule)) && restore ==> points in {old(points), SettlePoints(plan, old(points))}
      ensures old(schedule) == [] ==> schedule == [] && !o.Crashed?
      ensures old(schedule) == [] && PointsAt(plan, old(points), if restore then plan.target.tag else plan.source.tag) ==> o.Done?
    {
      hide Sound;
      var wanted := if restore then plan.source.tag else plan.target.tag;
      var found :- FetchPoints();
      var _ :- Verified(found, plan, if restore then plan.target.tag else plan.source.tag);
      var ids := PointIds(found);
      ghost var before := points;
      RetagNone(before, wanted);
      RetagAll(plan, before, wanted);
      var _, hit :- SetPayload(ids, wanted);
      var updated :- FetchPoints();
      if PointIds(updated) != ids {
        return Raised(IndexMismatch);
      }
      var _ :- Verified(updated, plan, wanted);
      return Done(|found|);
    }

    // ---- parent rows ----

    /** One transaction on the parents database. */
    method PatchParents(plan: Plan, restore: bool) returns (o: Outcome<nat>)
      requires Healthy() && Running() && job.value.plan == plan
      modifies this`schedule, this`categories, this`row, this`points, this`parents, this`others
      ensures Healthy() && Here() == old(Here()).(parents := parents)
      ensures o.Done? ==> ParentsAt(plan, parents, if restore then plan.source.tag else plan.target.tag) && o.value == |parents|
      ensures Calm(old(schedule)) ==> Calm(schedule) && categories == old(categories) && others == old(others)
      ensures Calm(old(schedule)) && restore ==> parents in {old(parents), SettleParents(plan, old(parents))}
      ensures old(schedule) == [] ==> schedule == [] && !o.Crashed?
      ensures old(schedule) == [] && ParentsAt(plan, old(parents), if restore then plan.target.tag else plan.source.tag) ==> o.Done?
    {
      var f := Draw();
      if !Applies(f) {
        return Report(f, 0);
      }
      if parents == [] {
        return Raised(IndexMissing);
      }
      if exists i | 0 <= i < |parents| ::
           parents[i].item != plan.item || parents[i].tag != if restore then plan.target.tag else plan.source.tag {
        return Raised(IndexMismatch);
      }
      parents := RetagParents(parents, plan.item, if restore then plan.source.tag else plan.target.tag);
      return Report(f, |parents|);
    }

    // ---- app database ----

    /** The transaction that moves the item, after checking everything again. */
    method CommitItem(plan: Plan) returns (o: Outcome<()>)
      requires Healthy() && Running() && job.value.plan == plan
      modifies this`schedule, this`categories, this`row, this`points, this`parents, this`others, this`job
      ensures Healthy() && Here() == old(Here()).(row := row)
      ensures Running() && job.value.plan == plan
      ensures o.Done? ==> row == old(row).(category := plan.targetId) && MayCommit(plan, old(row), categories, others)
      ensures o.Done? ==> OwnName(row, others) && job.value == old(job.value).(status := Committing, itemCommitted := true)
      ensures old(schedule) == [] && !o.Done? ==> row == old(row) && job == old(job)
      ensures old(schedule) == [] && !o.Done? && old(row).category == plan.sourceId ==> o == Raised(Refusal(plan, categories, others))
      ensures old(schedule) == [] ==> schedule == []
      ensures old(schedule) == [] ==> (o.Done? <==> MayCommit(plan, old(row), categories, others)) && !o.Crashed?
      ensures old(schedule) == [] ==> categories == old(categories) && others == old(others)
    {
      var f := Draw();
      if !Applies(f) {
        return Report(f, ());
      }
      if row.archived || row.newest != plan.version || row.head != Some(plan.version) || row.category != plan.sourceId {
        return Raised(VersionConflict);
      }
      if plan.targetId !in categories || !categories[plan.targetId].active {
        return Raised(CategoryNotFound);
      }
      if plan.sourceId !in categories || categories[plan.sourceId].stamp != plan.source
         || categories[plan.targetId].stamp != plan.target {
        return Raised(VersionConflict);
      }
      if NameTaken(others, row.filename, plan.targetId) {
        return Raised(FilenameConflict);
      }
      row := row.(category := plan.targetId);
      job := Some(job.value.(status := Committing, itemCommitted := true));
      return Report(f, ());
    }

    /** The transaction that declares success, provided the item is at the target. */
    method CompleteJob(plan: Plan) returns (o: Outcome<()>)
      requires Healthy() && Running() && job.value.plan == plan
      requires row.category == plan.targetId ==> AllAtTarget(plan, Here())
      modifies this`schedule, this`categories, this`row, this`points, this`parents, this`others, this`job, this`endings
      ensures Healthy() && Here() == old(Here()) && job.Some? && job.value.plan == plan
      ensures Running() || job.value.status == Succeeded
      ensures o.Done? ==> job.value.status == Succeeded
      ensures job.value == if Running() then old(job.value) else old(job.value).(status := Succeeded, error := None)
      ensures endings == if Running() then old(endings) else old(endings) + [Ending(agreed, job.value, Here())]
      ensures old(schedule) == [] ==> others == old(others) && (row.category == plan.targetId ==> o.Done?)
    {
      hide UnderWay, PointsAt, ParentsAt, Shows;
      var f := Draw();
      if !Applies(f) {
        return Report(f, ());
      }
      if row.category != plan.targetId {
        return Raised(VersionConflict);
      }
      job := Some(job.value.(status := Succeeded, error := None));
      endings := endings + [Ending(agreed, job.value, Here())];
      return Report(f, ());
    }

    // ---- exported view ----

    /** Export the published items into a fresh generation, this item at the given category. */
    method PrepareView(category: CategoryId) returns (o: Outcome<GenerationId>)
      requires Healthy() && Running()
      modifies this`schedule, this`categories, this`row, this`points, this`parents, this`others,
               this`generations, this`nextGeneration
      ensures Healthy() && Here() == old(Here())
      ensures Calm(old(schedule)) ==> Calm(schedule) && categories == old(categories) && others == old(others)
      ensures old(schedule) == [] ==> o.Done? && schedule == []
      ensures o.Done? ==> o.value in generations && generations[o.value] == Exported(item, row.(category := category), others)
      ensures o.Done? ==> o.value !in old(generations) && generations == old(generations)[o.value := generations[o.value]]
    {
      var f := Draw();
      var generation := nextGeneration;
      nextGeneration := nextGeneration + 1;
      if Applies(f) && !f.FailAfter? {
        generations := generations[generation := Exported(item, row.(category := category), others)];
      }
      return Report(f, generation);
    }

    method DiscardGeneration(generation: GenerationId) returns (o: Outcome<()>)
      requires Healthy() && Running()
      modifies this`schedule, this`categories, this`row, this`points, this`parents, this`others, this`generations
      ensures Healthy() && Here() == old(Here())
      ensures Calm(old(schedule)) ==> Calm(schedule) && categories == old(categories) && others == old(others)
      ensures old(schedule) == [] ==> o.Done? && schedule == []
      ensures o.Done? ==> generations == old(generations) - {generation}
    {
      var f := Draw();
      if Applies(f) {
        generations := generations - {generation};
      }
      return Report(f, ());
    }

    method RemovePrevious() returns (o: Outcome<()>)
      requires Healthy() && Running()
      modifies this`schedule, this`categories, this`row, this`points, this`parents, this`others, this`previous
      ensures Healthy() && Here() == old(Here())
      ensures Calm(old(schedule)) ==> Calm(schedule) && categories == old(categories) && others == old(others)
      ensures old(schedule) == [] ==> o.Done? && schedule == []
      ensures previous == old(previous) || previous.None?
      ensures o.Done? ==> previous.None?
    {
      var f := Draw();
      if Applies(f) {
        previous := None;
      }
      return Report(f, ());
    }

    /** Rename the exported view to the previous one. */
    method SetCurrentAside() returns (o: Outcome<()>)
      requires Healthy() && Running() && job.value.status != Pending
      modifies this`schedule, this`categories, this`row, this`points, this`parents, this`others, this`previous, this`current
      ensures Healthy() && Here() == old(Here()).(view := current)
      ensures Calm(old(schedule)) ==> Calm(schedule) && categories == old(categories) && others == old(others)
      ensures old(schedule) == [] ==> o.Done? && schedule == []
      ensures (previous == old(previous) && current == old(current) && !o.Done?) || (previous == old(current) && current.None?)
    {
      var f := Draw();
      if Applies(f) {
        previous, current := current, None;
      }
      return Report(f, ());
    }

    /** Rename a generation to the exported view. */
    method InstallGeneration(generation: GenerationId) returns (o: Outcome<()>)
      requires Healthy() && Running() && generation in generations
      modifies this`schedule, this`categories, this`row, this`points, this`parents, this`others,
               this`generations, this`current
      ensures Healthy() && Here() == old(Here()).(view := current)
      ensures Calm(old(schedule)) ==> Calm(schedule) && categories == old(categories) && others == old(others)
      ensures o.Done? ==> current == Some(old(generations[generation]))
      ensures old(schedule) == [] ==> o.Done? && schedule == []
      ensures (generations == old(generations) && current == old(current) && !o.Done?)
              || (generations == old(generations) - {generation} && current == Some(old(generations[generation])))
    {
      var f := Draw();
      if Applies(f) {
        current := Some(generations[generation]);
        generations := generations - {generation};
      }
      return Report(f, ());
    }

    /** The undo of an activation: rename the previous view back. */
    method BringPreviousBack() returns (o: Outcome<()>)
      requires Healthy() && Running()
      modifies this`schedule, this`categories, this`row, this`points, this`parents, this`others, this`previous, this`current
      ensures Healthy() && Here() == old(Here()).(view := current)
      ensures Calm(old(schedule)) ==> Calm(schedule) && categories == old(categories) && others == old(others)
      ensures old(schedule) == [] ==> o.Done? && schedule == []
      ensures (previous == old(previous) && current == old(current)) || (current == old(previous) && previous.None?)
    {
      var f := Draw();
      if Applies(f) {
        current, previous := previous, None;
      }
      return Report(f, ());
    }

    /** `activate_prepared_read_only_view`: swap the exported view for a prepared generation. */
    method Activate(generation: GenerationId) returns (o: Outcome<()>)
      requires Healthy() && Running()
      modifies this`schedule, this`categories, this`row, this`points, this`parents, this`others,
               this`generations, this`previous, this`current
      ensures Healthy() && Here() == old(Here()).(view := current)
      ensures Calm(old(schedule)) ==> Calm(schedule) && categories == old(categories) && others == old(others)
      ensures o.Done? ==> generation in old(generations) && current == Some(old(generations[generation]))
      ensures old(schedule) == [] ==> schedule == [] && !o.Crashed?
      ensures old(schedule) == [] && generation in old(generations) ==> o.Done?
      ensures o.Done? ==> generations == old(generations) - {generation} && previous.None?
      ensures old(current).Some? ==>
                old(current) in {current, previous} || (generation in old(generations) && current == Some(old(generations[generation])))
    {
      hide Sound, UnderWay;
      if generation !in generations {
        return Raised(GenerationMissing);
      }
      if previous.Some? {
        var _ :- RemovePrevious();
      }
      var moved := false;
      var swap: Outcome<()> := Done(());
      if current.Some? {
        swap := SetCurrentAside();
        moved := swap.Done?;
      }
      if swap.Done? {
        swap := InstallGeneration(generation);
      }
      if swap.Raised? && moved && current.None? && previous.Some? {
        var _ :- BringPreviousBack();
      }
      var _ :- swap;
      if previous.Some? {
        var _ :- RemovePrevious();
      }
      return Done(());
    }

    /** `rebuild_read_only_view`: export the app database as it is. */
    method RebuildView() returns (o: Outcome<()>)
      requires Healthy() && Running()
      modifies this`schedule, this`categories, this`row, this`points, this`parents, this`others,
               this`generations, this`nextGeneration, this`previous, this`current
      ensures Healthy() && Here() == old(Here()).(view := current)
      ensures Calm(old(schedule)) ==> Calm(schedule) && categories == old(categories) && others == old(others)
      ensures o.Done? ==> Shows(current, item, row.category)
      ensures o.Done? && Calm(old(schedule)) ==> current == Some(Exported(item, row, others))
      ensures old(schedule) == [] ==> o.Done? && schedule == []
      ensures o.Done? ==> generations == old(generations) && previous.None?
    {
      var generation :- PrepareView(row.category);
      var swap := Activate(generation);
      if swap.Raised? && generation in generations {
        var _ :- DiscardGeneration(generation);
      }
      return swap;
    }

    // ---- rollback ----

    /** Bring the points back if all are at the target; both sides at once cannot be repaired. */
    method RollbackPoints(plan: Plan) returns (o: Outcome<()>)
      requires Healthy() && Running() && job.value.plan == plan
      modifies this`schedule, this`categories, this`row, this`points, this`parents, this`others
      ensures Healthy() && Here() == old(Here()).(points := points)
      ensures o.Done? && agreed ==> PointsAt(plan, points, plan.source.tag)
      ensures Calm(old(schedule)) ==> Calm(schedule) && categories == old(categories) && others == old(others)
      ensures Calm(old(schedule)) ==> points in {old(points), SettlePoints(plan, old(points))}
      ensures old(schedule) == [] ==> schedule == [] && !o.Crashed?
      ensures old(schedule) == [] && agreed ==> points == SettlePoints(plan, old(points))
      ensures old(schedule) == [] && agreed ==> (o.Done? <==> PointsAt(plan, points, plan.source.tag))
    {
      var found :- FetchPoints();
      if found != [] {
        if forall i | 0 <= i < |found| :: found[i].tag == plan.target.tag {
          var _ :- PatchPoints(plan, true);
        } else if exists i | 0 <= i < |found| :: found[i].tag != plan.source.tag {
          return Raised(IndexMismatch);
        }
      } else if job.value.qdrantApplied {
        return Raised(IndexMissing);
      }
      return Done(());
    }

    /** The side of the parent rows is read off one row: their update was one transaction. */
    method RollbackParents(plan: Plan) returns (o: Outcome<()>)
      requires Healthy() && Running() && job.value.plan == plan
      modifies this`schedule, this`categories, this`row, this`points, this`parents, this`others
      ensures Healthy() && Here() == old(Here()).(parents := parents)
      ensures o.Done? && agreed ==> ParentsAt(plan, parents, plan.source.tag)
      ensures Calm(old(schedule)) ==> Calm(schedule) && categories == old(categories) && others == old(others)
      ensures Calm(old(schedule)) && agreed ==> parents in {old(parents), SettleParents(plan, old(parents))}
      ensures old(schedule) == [] ==> schedule == [] && !o.Crashed?
      ensures old(schedule) == [] && agreed ==> parents == SettleParents(plan, old(parents)) && o.Done?
    {
      var f := Draw();
      var _ :- Report(f, ());
      if i :| 0 <= i < |parents| && parents[i].item == plan.item {
        if parents[i].tag == plan.target.tag {
          var _ :- PatchParents(plan, true);
        } else if parents[i].tag != plan.source.tag {
          return Raised(IndexMismatch);
        }
      }
      return Done(());
    }

    /** Move the item back, unless the unique file name index forbids it, and export again. */
    method RestoreAppAndView(plan: Plan) returns (o: Outcome<()>)
      requires Healthy() && Running() && job.value.plan == plan
      modifies this`schedule, this`categories, this`row, this`points, this`parents, this`others,
               this`generations, this`nextGeneration, this`previous, this`current
      ensures Healthy() && Here() == old(Here()).(row := row, view := current)
      ensures o.Done? ==> row.category == plan.sourceId && Shows(current, item, plan.sourceId)
      ensures Calm(old(schedule)) ==> Calm(schedule) && categories == old(categories) && others == old(others)
      ensures Calm(old(schedule)) ==> row in {old(row), SettleRow(plan, old(row), others)}
      ensures Calm(old(schedule)) && ReturnBlocked(plan, old(row), others) ==> current == old(current)
      ensures old(schedule) == [] ==> schedule == [] && !o.Crashed?
      ensures old(schedule) == [] ==> row == SettleRow(plan, old(row), others) && current == old(SettleView(plan, Here(), others))
      ensures old(schedule) == [] ==> (o.Done? <==> row.category == plan.sourceId)
      ensures o.Done? ==> generations == old(generations) && previous.None?
    {
      hide Sound, PointsAt, ParentsAt, PointsBetween, Exported, EntryTaken;
      var f := Draw();
      if !Applies(f) {
        return Report(f, ());
      }
      if row.category == plan.targetId {
        if row.entered && EntryTaken(others, row.filename, plan.sourceId) {
          return Raised(StoreFailure);
        }
        row := row.(category := plan.sourceId);
      }
      var _ :- Report(f, ());
      o := RebuildView();
    }

    method RollbackView(plan: Plan) returns (o: Outcome<()>)
      requires Healthy() && Running() && job.value.plan == plan
      modifies this`schedule, this`categories, this`row, this`points, this`parents, this`others,
               this`generations, this`nextGeneration, this`previous, this`current
      ensures Healthy() && Here() == old(Here()).(row := row, view := current)
      ensures o.Done? ==> row.category == plan.sourceId && Shows(current, item, plan.sourceId)
      ensures Calm(old(schedule)) ==> Calm(schedule) && categories == old(categories) && others == old(others)
      ensures Calm(old(schedule)) ==> row in {old(row), SettleRow(plan, old(row), others)}
      ensures Calm(old(schedule)) && ReturnBlocked(plan, old(row), others) ==> current == old(current)
      ensures old(schedule) == [] ==> schedule == [] && !o.Crashed?
      ensures old(schedule) == [] ==> row == SettleRow(plan, old(row), others) && current == old(SettleView(plan, Here(), others))
      ensures old(schedule) == [] ==> (o.Done? <==> row.category == plan.sourceId)
      ensures o.Done? ==> job.value.candidate.None? || job.value.candidate.value !in generations
    {
      if job.value.candidate.Some? && job.value.candidate.value in generations {
        var _ :- DiscardGeneration(job.value.candidate.value);
      }
      o := RestoreAppAndView(plan);
    }

    /** The three compensations, each attempted whatever became of the others. */
    method Compensate(plan: Plan) returns (crashed: bool, failures: seq<string>)
      requires Healthy() && Running() && job.value.plan == plan
      modifies this`schedule, this`categories, this`row, this`points, this`parents, this`others,
               this`generations, this`nextGeneration, this`previous, this`current
      ensures Healthy()
      ensures !crashed && agreed && failures == [] ==> AllAtSource(plan, Here())
      ensures Calm(old(schedule)) ==> Calm(schedule) && categories == old(categories) && others == old(others)
      ensures Calm(old(schedule)) && agreed ==> PartlySettled(plan, old(Here()), Here(), others)
      ensures old(schedule) == [] ==> schedule == []
      ensures old(schedule) == [] && agreed ==> !crashed && Here() == old(Settle(plan, Here(), others))
      ensures old(schedule) == [] && agreed ==> (failures == [] <==> AllAtSource(plan, Here()))
      ensures old(schedule) == [] && agreed ==>
                failures == (if PointsAt(plan, points, plan.source.tag) then [] else ["qdrant"])
                          + (if row.category == plan.sourceId then [] else ["view"])
    {
      failures := [];
      var o := RollbackPoints(plan);
      if o.Crashed? { return true, failures; }
      if o.Raised? { failures := failures + ["qdrant"]; }
      o := RollbackParents(plan);
      if o.Crashed? { return true, failures; }
      if o.Raised? { failures := failures + ["parents"]; }
      o := RollbackView(plan);
      if o.Crashed? { return true, failures; }
      if o.Raised? { failures := failures + ["view"]; }
      crashed := false;
    }

    /** Compensate and declare the job failed. */
    method FinishRollback(code: Code) returns (o: Outcome<()>)
      requires Healthy() && Running()
      modifies this
      ensures Healthy() && agreed == old(agreed) && job.Some? && job.value.plan == old(job.value.plan)
      ensures if o.Done? then job.value.status == Failed && job.value.error == Some(if job.value.failedStages == [] then code else RollbackFailed)
              else Busy() ==> Running()
      ensures Calm(old(schedule)) && agreed ==> Calm(schedule) && others == old(others)
      ensures Calm(old(schedule)) && agreed ==> PartlySettled(job.value.plan, old(Here()), Here(), others)
      ensures old(schedule) == [] && agreed ==> o.Done? && schedule == [] && Here() == old(Settle(job.value.plan, Here(), others))
      ensures old(schedule) == [] && agreed ==>
                job.value.error == Some(if AllAtSource(job.value.plan, Here()) then code else RollbackFailed)
    {
      var crashed, failures := Compensate(job.value.plan);
      if crashed {
        return Crashed;
      }
      var final := if failures != [] then RollbackFailed else code;
      o := UpdateJob(job.value.(status := Failed, error := Some(final), failedStages := failures));
    }

    /**
     The rollback of an active job.  However far a rollback gets, what is left to reach does not
     change (for faults that tear no write); undisturbed, it gets there.
     */
    method RollbackActive(code: Code) returns (o: Outcome<()>)
      requires Healthy() && Running()
      modifies this
      ensures Healthy() && agreed == old(agreed) && job.Some? && job.value.plan == old(job.value.plan)
      ensures if o.Done? then job.value.status == Failed && job.value.error == Some(if job.value.failedStages == [] then code else RollbackFailed)
              else Busy() ==> Running()
      ensures Calm(old(schedule)) && agreed ==> Calm(schedule) && others == old(others)
      ensures Calm(old(schedule)) && agreed ==> PartlySettled(job.value.plan, old(Here()), Here(), others)
      ensures old(schedule) == [] && agreed ==> o.Done? && schedule == [] && Here() == old(Settle(job.value.plan, Here(), others))
      ensures old(schedule) == [] && agreed ==>
                job.value.error == Some(if AllAtSource(job.value.plan, Here()) then code else RollbackFailed)
    {
      var _ :- UpdateJob(job.value.(status := RollingBack));
      o := FinishRollback(code);
    }

    /** `rollback_reclassification`: a job that already succeeded is left alone. */
    method Rollback(code: Code) returns (o: Outcome<()>)
      requires Healthy() && job.Some? && (Running() || job.value.status == Succeeded)
      modifies this
      ensures Healthy() && job.Some? && job.value.plan == old(job.value.plan)
      ensures if o.Done? then !Busy() else Busy() ==> Running()
      ensures old(Running()) && o.Done? ==> job.value.status == Failed
      ensures old(Running()) && o.Done? ==> job.value.error == Some(if job.value.failedStages == [] then code else RollbackFailed)
      ensures old(Running() && agreed && schedule == []) ==>
                o.Done? && Here() == old(Settle(job.value.plan, Here(), others)) && others == old(others)
                && job.value.error == Some(if AllAtSource(job.value.plan, Here()) then code else RollbackFailed)
      ensures old(!Running()) ==> job == old(job) && o.Done? && Here() == old(Here())
    {
      if job.value.status == Succeeded {
        return Done(());
      }
      o := RollbackActive(code);
    }

    // ---- the forward run ----

    /** Export the view with the item at its target, and note the candidate in the job row. */
    method StageView(plan: Plan) returns (o: Outcome<GenerationId>)
      requires Healthy() && Running() && job.value.plan == plan
      modifies this
      ensures Healthy() && agreed == old(agreed) && Running() && job.value.plan == plan && Here() == old(Here())
      ensures o.Done? ==> o.value in generations && Shows(Some(generations[o.value]), item, plan.targetId)
      ensures o.Done? ==> job.value == old(job.value).(candidate := Some(o.value))
      ensures o.Done? && Calm(old(schedule)) ==> generations[o.value] == Exported(item, row.(category := plan.targetId), others)
      ensures Calm(old(schedule)) ==> Calm(schedule) && categories == old(categories) && others == old(others)
      ensures old(schedule) == [] ==> o.Done? && schedule == []
    {
      var generation :- PrepareView(plan.targetId);
      var _ :- UpdateJob(job.value.(candidate := Some(generation)));
      return Done(generation);
    }

    method StagePoints(plan: Plan) returns (o: Outcome<nat>)
      requires Healthy() && Running() && job.value.plan == plan
      modifies this`schedule, this`categories, this`row, this`points, this`parents, this`others, this`job, this`endings
      ensures Healthy() && Running() && job.value.plan == plan && Here() == old(Here()).(points := points)
      ensures o.Done? ==> PointsAt(plan, points, plan.target.tag) && o.value == |points|
      ensures o.Done? ==> job.value == old(job.value).(pointCount := |points|, qdrantApplied := true)
      ensures Calm(old(schedule)) ==> Calm(schedule) && categories == old(categories) && others == old(others)
      ensures old(schedule) == [] ==> schedule == []
      ensures old(schedule) == [] && PointsAt(plan, old(points), plan.source.tag) ==> o.Done?
    {
      var count :- PatchPoints(plan, false);
      var _ :- UpdateJob(job.value.(pointCount := count, qdrantApplied := true));
      return Done(count);
    }

    method StageParents(plan: Plan) returns (o: Outcome<nat>)
      requires Healthy() && Running() && job.value.plan == plan
      modifies this`schedule, this`categories, this`row, this`points, this`parents, this`others, this`job, this`endings
      ensures Healthy() && Running() && job.value.plan == plan && Here() == old(Here()).(parents := parents)
      ensures o.Done? ==> ParentsAt(plan, parents, plan.target.tag) && o.value == |parents|
      ensures o.Done? ==> job.value == old(job.value).(parentCount := |parents|, parentsApplied := true)
      ensures Calm(old(schedule)) ==> Calm(schedule) && categories == old(categories) && others == old(others)
      ensures old(schedule) == [] ==> schedule == []
      ensures old(schedule) == [] && ParentsAt(plan, old(parents), plan.source.tag) ==> o.Done?
    {
      var count :- PatchParents(plan, false);
      var _ :- UpdateJob(job.value.(parentCount := count, parentsApplied := true));
      return Done(count);
    }

    method StageSwap(plan: Plan, generation: GenerationId) returns (o: Outcome<()>)
      requires Healthy() && Running() && job.value.plan == plan
      modifies this
      ensures Healthy() && agreed == old(agreed) && Running() && job.value.plan == plan && Here() == old(Here()).(view := current)
      ensures o.Done? ==> generation in old(generations) && current == Some(old(generations[generation]))
      ensures o.Done? ==> job.value == old(job.value).(viewActivated := true)
      ensures old(schedule) == [] ==> schedule == [] && others == old(others)
      ensures old(schedule) == [] && generation in old(generations) ==> o.Done?
    {
      var _ :- Activate(generation);
      var _ :- UpdateJob(job.value.(viewActivated := true));
      return Done(());
    }

    /** Read the three databases back before declaring success. */
    method StageVerify(plan: Plan, pointCount: nat, parentCount: nat) returns (o: Outcome<()>)
      requires Healthy() && Running() && job.value.plan == plan && parentCount > 0
      modifies this`schedule, this`categories, this`row, this`points, this`parents, this`others
      ensures Healthy() && Here() == old(Here())
      ensures o.Done? ==> row.category == plan.targetId && PointsAt(plan, points, plan.target.tag)
      ensures old(schedule) == [] ==> schedule == [] && others == old(others)
      ensures old(schedule) == [] && AllAtTarget(plan, Here()) && |points| == pointCount && |parents| == parentCount ==> o.Done?
    {
      var f := Draw();
      var _ :- Report(f, ());
      if row.category != plan.targetId {
        return Raised(VersionConflict);
      }
      var found :- FetchPoints();
      if |found| != pointCount {
        return Raised(IndexMismatch);
      }
      var _ :- Verified(found, plan, plan.target.tag);
      f := Draw();
      var _ :- Report(f, ());
      if |parents| != parentCount || exists i | 0 <= i < |parents| :: parents[i].item != plan.item || parents[i].tag != plan.target.tag {
        return Raised(IndexMismatch);
      }
      return Done(());
    }

    /** What the second half of a run starts from. */
    ghost predicate Primed(plan: Plan, generation: GenerationId, pointCount: nat, parentCount: nat)
      reads this
    {
      && PointsAt(plan, points, plan.target.tag) && |points| == pointCount
      && ParentsAt(plan, parents, plan.target.tag) && |parents| == parentCount
      && generation in generations && Shows(Some(generations[generation]), item, plan.targetId)
    }

    /** Retag the points, then the parents. */
    method RetagStores(plan: Plan) returns (o: Outcome<(nat, nat)>, stage: Stage)
      requires Healthy() && Running() && job.value.plan == plan
      modifies this`schedule, this`categories, this`row, this`points, this`parents, this`others, this`job, this`endings
      ensures Healthy() && Running() && job.value.plan == plan && Here() == old(Here()).(points := points, parents := parents)
      ensures o.Done? ==> PointsAt(plan, points, plan.target.tag) && ParentsAt(plan, parents, plan.target.tag) && o.value == (|points|, |parents|)
      ensures o.Done? ==> job.value == old(job.value).(pointCount := |points|, qdrantApplied := true, parentCount := |parents|, parentsApplied := true)
      ensures if stage == AtQdrant then !o.Done? && parents == old(parents) else stage == AtParents
      ensures Calm(old(schedule)) ==> Calm(schedule) && categories == old(categories) && others == old(others)
      ensures old(schedule) == [] ==> schedule == []
      ensures old(schedule) == [] && PointsAt(plan, old(points), plan.source.tag) && ParentsAt(plan, old(parents), plan.source.tag) ==> o.Done?
    {
      stage := AtQdrant;
      var pointCount :- StagePoints(plan);
      stage := AtParents;
      var parentCount :- StageParents(plan);
      o := Done((pointCount, parentCount));
    }

    /** First half of a run: export the candidate view, then retag points and parents. */
    method RetagIndexes(plan: Plan) returns (o: Outcome<(GenerationId, nat, nat)>, stage: Stage)
      requires Healthy() && Running() && job.value.plan == plan
      modifies this
      ensures Healthy() && agreed == old(agreed) && Running() && job.value.plan == plan && row == old(row)
      ensures o.Done? ==> Primed(plan, o.value.0, o.value.1, o.value.2)
      ensures o.Done? ==> job.value == old(job.value).(candidate := Some(o.value.0), pointCount := |points|, qdrantApplied := true,
                                                       parentCount := |parents|, parentsApplied := true)
      ensures o.Done? && Calm(old(schedule)) ==> generations[o.value.0] == Exported(item, row.(category := plan.targetId), others)
      ensures stage in {AtView, AtQdrant, AtParents}
      ensures stage != AtParents ==> !o.Done? && parents == old(parents) && (stage == AtView ==> points == old(points))
      ensures Calm(old(schedule)) ==> Calm(schedule) && categories == old(categories) && others == old(others)
      ensures old(schedule) == [] && old(AllAtSource(plan, Here())) ==> o.Done? && schedule == []
    {
      stage := AtView;
      var generation :- StageView(plan);
      var retagged;
      retagged, stage := RetagStores(plan);
      var counts :- retagged;
      o := Done((generation, counts.0, counts.1));
    }

    /** Swap the view once the item is committed, verify, and declare success. */
    method SwapAndVerify(plan: Plan, generation: GenerationId, pointCount: nat, parentCount: nat) returns (o: Outcome<()>, stage: Stage)
      requires Healthy() && Running() && job.value.plan == plan && row.category == plan.targetId
      requires Primed(plan, generation, pointCount, parentCount)
      modifies this
      ensures Healthy() && agreed == old(agreed) && job.Some? && job.value.plan == plan
      ensures Running() || job.value.status == Succeeded
      ensures Here() == old(Here()).(view := current)
      ensures o.Done? ==> AllAtTarget(plan, Here())
      ensures o.Done? ==> job.value == old(job.value).(status := Succeeded, viewActivated := true, error := None)
      ensures old(schedule) == [] ==> o.Done? && others == old(others) && current == Some(old(generations[generation]))
    {
      stage := AtView;
      var _ :- StageSwap(plan, generation);
      stage := AtVerify;
      var _ :- StageVerify(plan, pointCount, parentCount);
      o := CompleteJob(plan);
    }

    /** Second half: commit the item, swap the view, verify, and declare success. */
    method Publish(plan: Plan, generation: GenerationId, pointCount: nat, parentCount: nat) returns (o: Outcome<()>, stage: Stage)
      requires Healthy() && Running() && job.value.plan == plan
      requires Primed(plan, generation, pointCount, parentCount)
      modifies this
      ensures Healthy() && agreed == old(agreed) && job.Some? && job.value.plan == plan
      ensures Running() || job.value.status == Succeeded
      ensures o.Done? ==> job.value.status == Succeeded
      ensures old(schedule) == [] ==> !o.Crashed? && (o.Done? <==> old(MayCommit(plan, row, categories, others)))
      ensures points == old(points) && parents == old(parents) && (o.Done? ==> AllAtTarget(plan, Here()))
      ensures old(schedule) == [] ==> others == old(others)
      ensures old(schedule) == [] && o.Done? ==>
                OwnName(row, others) && row == old(row).(category := plan.targetId) && current == Some(old(generations[generation]))
      ensures o.Done? ==> job.value == old(job.value).(status := Succeeded, itemCommitted := true, viewActivated := true, error := None)
      ensures old(schedule) == [] && o.Raised? ==> schedule == [] && Running() && Here() == old(Here())
      ensures old(schedule) == [] && o.Raised? && old(row).category == plan.sourceId ==>
                stage == AtApp && o.code == Refusal(plan, old(categories), others)
    {
      stage := AtApp;
      var _ :- CommitItem(plan);
      o, stage := SwapAndVerify(plan, generation, pointCount, parentCount);
    }

    /** The body that `run_content_reclassification` guards; `stage` is where it stopped. */
    method Attempt(plan: Plan) returns (o: Outcome<()>, stage: Stage)
      requires Healthy() && Running() && job.value.plan == plan
      modifies this
      ensures Healthy() && agreed == old(agreed) && job.Some? && job.value.plan == plan
      ensures Running() || job.value.status == Succeeded
      ensures o.Done? ==> job.value.status == Succeeded
      ensures old(schedule) == [] && old(AllAtSource(plan, Here())) ==>
                !o.Crashed? && (o.Done? <==> old(MayCommit(plan, row, categories, others)))
      ensures old(schedule) == [] && old(AllAtSource(plan, Here())) && o.Raised? ==> schedule == [] && Running()
      ensures old(schedule) == [] && old(AllAtSource(plan, Here())) && o.Raised? ==>
                stage == AtApp && o.code == Refusal(plan, old(categories), others)
                && PointsAt(plan, points, plan.target.tag) && ParentsAt(plan, parents, plan.target.tag) && row == old(row)
      ensures old(schedule) == [] && old(AllAtSource(plan, Here())) ==>
                others == old(others) && (o.Done? ==> OwnName(row, others) && current == Some(Exported(item, row, others)))
      ensures o.Done? ==> AllAtTarget(plan, Here()) && Accounted(job.value, points, parents)
    {
      var indexed;
      indexed, stage := RetagIndexes(plan);
      if !indexed.Done? {
        return indexed.PropagateFailure(), stage;
      }
      o, stage := Publish(plan, indexed.value.0, indexed.value.1, indexed.value.2);
    }

    /** The job's last word when nothing goes wrong: success, or the reason why the commit was refused. */
    ghost predicate Ended(plan: Plan, row0: Item, categories0: map<CategoryId, Category>, others0: map<ItemId, Item>)
      reads this
    {
      && job.Some? && job.value.plan == plan && ShowsPublished(current, item, row, others)
      && if MayCommit(plan, row0, categories0, others0)
         then job.value.status == Succeeded && AllAtTarget(plan, Here()) && OwnName(row, others) && Accounted(job.value, points, parents)
         else
           && job.value.status == Failed && AllAtSource(plan, Here())
           && (plan.targetId !in categories0 || !categories0[plan.targetId].active ==> job.value.error == Some(CategoryNotFound))
           && (plan.targetId in categories0 && categories0[plan.targetId] == Category(plan.target, true)
               && plan.sourceId in categories0 && categories0[plan.sourceId].stamp == plan.source ==>
                 !OwnName(row0.(category := plan.targetId), others0) && job.value.error == Some(FilenameConflict))
           && (plan.targetId in categories0 && categories0[plan.targetId].active
               && (categories0[plan.targetId].stamp != plan.target
                   || plan.sourceId !in categories0 || categories0[plan.sourceId].stamp != plan.source) ==>
                 job.value.error == Some(VersionConflict))
    }

    /** A run of a pending job. */
    method RunPending(plan: Plan) returns (o: Outcome<()>)
      requires Healthy() && Busy() && !Running() && job.value.plan == plan
      modifies this
      ensures Healthy() && (o.Done? ==> !Busy())
      ensures old(agreed && schedule == []) ==> o.Done? && Ended(plan, old(row), old(categories), old(others))
    {
      hide SettlePoints, SettleParents, SettleRow, SettleView, Settle, PartlySettled, Retag, ShowsPublished, Exported;
      ghost var undisturbed := agreed && schedule == [];
      var _ :- UpdateJob(job.value.(status := Applying, error := None));
      var stage;
      o, stage := Attempt(plan);
      if o.Raised? {
        if undisturbed {
          RetaggedSettles(plan, Here(), others);
        }
        o := Rollback(Classify(o.code, stage));
      }
      ExportedShows(item, row, others);
    }

    /** `run_content_reclassification`, as the single worker calls it. */
    method Run() returns (o: Outcome<()>)
      requires Healthy()
      modifies this
      ensures Healthy()
      ensures o.Done? && old(Busy() && !Running()) ==> !Busy()
      ensures old(!Busy() || Running()) ==> o.Done? && job == old(job) && Here() == old(Here()) && schedule == old(schedule)
      ensures old(Busy() && !Running() && agreed && schedule == []) ==>
                o.Done? && Ended(old(job.value.plan), old(row), old(categories), old(others))
    {
      if job.None? || job.value.status != Pending {
        return Done(());
      }
      o := RunPending(job.value.plan);
    }

    /** `recover_reclassifications_on_boot`. */
    method Recover() returns (o: Outcome<()>)
      requires Healthy()
      modifies this
      ensures Healthy()
      ensures o.Done? ==> !Busy()
      ensures old(Running() && agreed && Calm(schedule)) ==>
        agreed && job.Some? && job.value.plan == old(job.value.plan) && others == old(others)
        && (Busy() ==> Running())
        && PartlySettled(job.value.plan, old(Here()), Here(), others)
        && (old(schedule) == [] ==> !Busy() && Here() == old(Settle(job.value.plan, Here(), others)))
      ensures old(Running() && agreed && schedule == []) ==>
                job.value.status == Failed && job.value.error == Some(if AllAtSource(job.value.plan, Here()) then BackendRestarted else RollbackFailed)
      ensures old(Busy() && !Running()) && o.Done? ==>
                Here() == old(Here()) && job == Some(old(job.value).(status := Failed, error := Some(BackendRestarted)))
    {
      if !Busy() {
        return Done(());
      }
      if job.value.status == Pending {
        o := UpdateJob(job.value.(status := Failed, error := Some(BackendRestarted)));
      } else {
        o := RollbackActive(BackendRestarted);
      }
    }

    /**
     Re-entrancy.  Boot recovery is cut off again and again, by crashes or failing job updates,
     at any of its store operations; the boot that is left in peace still leaves exactly what one
     uninterrupted rollback would have left.
     */
    method RecoverAfterCuts(boots: seq<seq<Event>>) returns (cutEveryTime: bool)
      requires Healthy() && Running() && agreed
      requires forall i | 0 <= i < |boots| :: Calm(boots[i])
      modifies this
      ensures Healthy() && !Running()
      ensures cutEveryTime ==> Here() == old(Settle(job.value.plan, Here(), others))
    {
      ghost var goal := Settle(job.value.plan, Here(), others);
      for i := 0 to |boots|
        invariant Healthy() && Running() && agreed && others == old(others)
        invariant job.value.plan == old(job.value.plan) && Settle(job.value.plan, Here(), others) == goal
      {
        ghost var before := Here();
        schedule := boots[i];
        var _ := Recover();
        if !Busy() {
          return false;
        }
        PartialRollbackKeepsGoal(job.value.plan, before, Here(), others);
      }
      schedule := [];
      var _ := Recover();
      return true;
    }

    // ---- requests and whole runs ----

    /** `create_reclassification_job`. */
    method Submit(target: CategoryId, expected: VersionId, allowed: bool) returns (o: Outcome<()>)
      requires Healthy()
      modifies this
      ensures Healthy()
      ensures o.Done? ==> allowed && MaySubmit(row, categories, others, target, expected) && job.Some?
      ensures o.Done? ==> job.value == Job(Plan(item, expected, row.category, target, categories[row.category].stamp, categories[target].stamp),
                                           Pending, None, 0, 0, false, false, false, false, None, [])
      ensures old(schedule) == [] && !o.Done? ==>
                job == old(job) && o.Raised? && Declined(allowed, old(Busy()), row, categories, others, target, expected, o.code)
      ensures o.Done? ==> agreed == AllAtSource(job.value.plan, Here())
      ensures old(schedule) == [] ==>
                (o.Done? <==> allowed && !old(Busy()) && MaySubmit(row, categories, others, target, expected))
    {
      var f := Draw();
      if !Applies(f) {
        return Report(f, ());
      }
      if !allowed {
        return Raised(Forbidden);
      }
      if row.category !in categories || row.archived {
        return Raised(ItemNotFound);
      }
      if row.newest != expected {
        return Raised(VersionConflict);
      }
      if row.head != Some(expected) || !row.published {
        return Raised(NotPublished);
      }
      if row.category == target {
        return Raised(SameCategory);
      }
      if target !in categories || !categories[target].active {
        return Raised(CategoryNotFound);
      }
      if Busy() {
        return Raised(InProgress);
      }
      if row.indexing {
        return Raised(PublicationInProgress);
      }
      if NameTaken(others, row.filename, target) {
        return Raised(FilenameConflict);
      }
      var plan := Plan(item, expected, row.category, target, categories[row.category].stamp, categories[target].stamp);
      job := Some(NewJob(plan));
      agreed := AllAtSource(plan, Here());
      return Report(f, ());
    }

    /**
     Any run at all: requests, worker turns and boots in any order, any faults, any interference
     the guards admit.  Every job that ended `succeeded` left all four stores at its target; every
     one that ended `failed`, other than through a failed rollback, left all four at its source
     when they agreed at its creation; and a boot that completes leaves no active job.
     */
    method Drive(commands: seq<Command>) returns (booted: bool)
      requires Healthy()
      modifies this
      ensures forall e | e in endings :: Sound(e.agreed, e.job, e.holdings)
      ensures job.Some? && !Busy() ==> endings != [] && endings[|endings| - 1].job == job.value
      ensures booted ==> !Busy()
    {
      var down := false;
      booted := false;
      for i := 0 to |commands|
        invariant Healthy()
        invariant booted ==> !Busy()
      {
        var o: Outcome<()> := Done(());
        match commands[i]
        case Boot =>
          o := Recover();
          down, booted := !o.Done?, o.Done?;
        case Submit(target, expected, allowed) =>
          if !down {
            o := Submit(target, expected, allowed);
            down, booted := o.Crashed?, false;
          }
        case Work =>
          if !down {
            o := Run();
            down, booted := o.Crashed?, false;
          }
      }
    }
  }

  lemma RetagNone(points: seq<Point>, tag: Tag)
    ensures Retag(points, {}, tag) == points
  {
  }

  lemma RetagAll(plan: Plan, points: seq<Point>, tag: Tag)
    ensures forall i | 0 <= i < |points| :: Retag(points, PointIds(points), tag)[i] == points[i].(tag := tag)
  {
    forall i | 0 <= i < |points| ensures Retag(points, PointIds(points), tag)[i] == points[i].(tag := tag) {
      assert points[i].id in PointIds(points);
    }
  }
}
