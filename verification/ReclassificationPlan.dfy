/**
 What one reclassification job promises, stated on values: the identity a job was created
 with, what "all stores hold the source" means, and the contents rollback is aiming at.
 */
module ReclassificationPlan {
  import opened Prelude

  type ItemId = nat
  type CategoryId = nat
  type VersionId = nat
  type PointId = nat
  type GenerationId = nat

  /** The pair (category_key, category) carried by every point payload and parent row. */
  datatype Tag = Tag(key: string, name: string)

  datatype Stamp = Stamp(tag: Tag, version: nat)
  datatype Category = Category(stamp: Stamp, active: bool)

  /**
   `filename` is the folded name of the newest version; `entered` says that the item's own column
   for it is set, which then holds the same.  Items older than the column are not entered.
   */
  datatype Item = Item(category: CategoryId, archived: bool, newest: VersionId, published: bool,
                       head: Option<VersionId>, indexing: bool, filename: string, entered: bool)

  datatype Point = Point(id: PointId, item: ItemId, tag: Tag)
  datatype Parent = Parent(id: nat, item: ItemId, tag: Tag)
  type View = map<ItemId, CategoryId>

  datatype Code =
    | Forbidden | ItemNotFound | VersionConflict | NotPublished | SameCategory | CategoryNotFound
    | InProgress | PublicationInProgress | FilenameConflict | IndexMissing | IndexMismatch
    | QdrantFailed | ParentFailed | ViewFailed | RollbackFailed | BackendRestarted | UnknownFailure
    | GenerationMissing  // raised by the view module, not a public failure code
    | StoreFailure       // any exception of a store

  datatype Status = Pending | Applying | Committing | RollingBack | Succeeded | Failed
  datatype Stage = AtView | AtQdrant | AtParents | AtApp | AtVerify

  /** The columns of a job row that never change after creation. */
  datatype Plan = Plan(item: ItemId, version: VersionId, sourceId: CategoryId, targetId: CategoryId,
                       source: Stamp, target: Stamp)

  datatype Job = Job(plan: Plan, status: Status, candidate: Option<GenerationId>,
                     pointCount: nat, parentCount: nat, qdrantApplied: bool, parentsApplied: bool,
                     itemCommitted: bool, viewActivated: bool, error: Option<Code>,
                     failedStages: seq<string>)

  predicate Active(job: Job) {
    job.status in {Pending, Applying, Committing, RollingBack}
  }

  function NewJob(plan: Plan): Job {
    Job(plan, Pending, None, 0, 0, false, false, false, false, None, [])
  }

  function Classify(code: Code, stage: Stage): Code {
    if code != GenerationMissing && code != StoreFailure then code
    else match stage
      case AtQdrant => QdrantFailed
      case AtParents => ParentFailed
      case AtView => ViewFailed
      case AtApp => UnknownFailure
      case AtVerify => UnknownFailure
  }

  // ---- the stores as one job sees them ----

  /** What the four stores hold for one job: index points, parent rows, item row, exported view. */
  datatype Holdings = Holdings(points: seq<Point>, parents: seq<Parent>, row: Item, view: Option<View>)

  predicate PointsAt(plan: Plan, points: seq<Point>, tag: Tag) {
    points != [] && forall i | 0 <= i < |points| :: points[i].item == plan.item && points[i].tag == tag
  }

  /** Points while a job is in flight: a torn payload write may leave some on either side. */
  predicate PointsBetween(plan: Plan, points: seq<Point>) {
    points != [] && forall i | 0 <= i < |points| ::
      points[i].item == plan.item && points[i].tag in {plan.source.tag, plan.target.tag}
  }

  predicate ParentsAt(plan: Plan, parents: seq<Parent>, tag: Tag) {
    parents != [] && forall i | 0 <= i < |parents| :: parents[i].item == plan.item && parents[i].tag == tag
  }

  predicate Shows(view: Option<View>, item: ItemId, category: CategoryId) {
    view.Some? && item in view.value && view.value[item] == category
  }

  predicate ThreeAt(plan: Plan, h: Holdings, tag: Tag, category: CategoryId) {
    && PointsAt(plan, h.points, tag)
    && ParentsAt(plan, h.parents, tag)
    && h.row.category == category
  }

  predicate AllAtSource(plan: Plan, h: Holdings) {
    ThreeAt(plan, h, plan.source.tag, plan.sourceId) && Shows(h.view, plan.item, plan.sourceId)
  }

  predicate AllAtTarget(plan: Plan, h: Holdings) {
    ThreeAt(plan, h, plan.target.tag, plan.targetId) && Shows(h.view, plan.item, plan.targetId)
  }

  /** The item row of an active job: nothing but the job itself may move it. */
  predicate Pinned(plan: Plan, row: Item) {
    && !row.archived
    && row.newest == plan.version
    && row.head == Some(plan.version)
    && row.category in {plan.sourceId, plan.targetId}
  }

  /** A started job whose stores agreed when it was created. */
  predicate InFlight(plan: Plan, h: Holdings) {
    && PointsBetween(plan, h.points)
    && (ParentsAt(plan, h.parents, plan.source.tag) || ParentsAt(plan, h.parents, plan.target.tag))
  }

  /**
   What the stores must hold when a job takes its terminal status.  `agreed` says that all four
   stores held the source category when the job was created.
   */
  predicate Sound(agreed: bool, job: Job, h: Holdings) {
    && (job.status == Succeeded ==> AllAtTarget(job.plan, h))
    && (agreed && job.status == Failed && job.error != Some(RollbackFailed) ==> AllAtSource(job.plan, h))
  }

  /** What the stores hold while a job is active. */
  predicate UnderWay(agreed: bool, job: Job, h: Holdings) {
    && job.plan.sourceId != job.plan.targetId
    && Pinned(job.plan, h.row)
    && (agreed ==> if job.status == Pending then AllAtSource(job.plan, h) else InFlight(job.plan, h))
  }

  // ---- store primitives ----

  function Retag(points: seq<Point>, hit: set<PointId>, tag: Tag): (r: seq<Point>)
    ensures |r| == |points|
  {
    seq(|points|, i requires 0 <= i < |points| =>
      if points[i].id in hit then points[i].(tag := tag) else points[i])
  }

  function RetagParents(parents: seq<Parent>, item: ItemId, tag: Tag): (r: seq<Parent>)
    ensures |r| == |parents|
  {
    seq(|parents|, i requires 0 <= i < |parents| =>
      if parents[i].item == item then parents[i].(tag := tag) else parents[i])
  }

  function PointIds(points: seq<Point>): set<PointId> {
    set i | 0 <= i < |points| :: points[i].id
  }

  /** The query of prepare_read_only_view: the published, unarchived items, one of them overridden. */
  function Exported(item: ItemId, row: Item, others: map<ItemId, Item>): View {
    (map i | i in others && others[i].head.Some? && !others[i].archived :: others[i].category)
    + if row.head.Some? && !row.archived then map[item := row.category] else map[]
  }

  /** The view lists every published, unarchived item under its category, and nothing else. */
  ghost predicate ShowsPublished(view: Option<View>, item: ItemId, row: Item, others: map<ItemId, Item>) {
    && view.Some?
    && (forall k | k in others && others[k].head.Some? && !others[k].archived && k != item :: k in view.value && view.value[k] == others[k].category)
    && (row.head.Some? && !row.archived ==> item in view.value && view.value[item] == row.category)
    && (forall k | k in view.value && k != item :: k in others && others[k].head.Some? && !others[k].archived)
    && (item in view.value && item !in others ==> row.head.Some? && !row.archived)
  }

  lemma ExportedShows(item: ItemId, row: Item, others: map<ItemId, Item>)
    ensures ShowsPublished(Some(Exported(item, row, others)), item, row, others)
  {
  }

  /** Another unarchived item of the category already bears the file name. */
  predicate NameTaken(others: map<ItemId, Item>, filename: string, category: CategoryId) {
    exists k | k in others :: !others[k].archived && others[k].category == category && others[k].filename == filename
  }

  /** The unique file name index has the name: it sees entered items only. */
  predicate EntryTaken(others: map<ItemId, Item>, filename: string, category: CategoryId) {
    exists k | k in others ::
      !others[k].archived && others[k].entered && others[k].category == category && others[k].filename == filename
  }

  /** A failure is recorded under its own code; an exception of a store under the code of the stage it struck. */
  lemma ClassifyIs(code: Code, stage: Stage)
    ensures code != GenerationMissing && code != StoreFailure ==> Classify(code, stage) == code
    ensures code == GenerationMissing || code == StoreFailure ==>
              Classify(code, stage) == match stage
                                       case AtQdrant => QdrantFailed
                                       case AtParents => ParentFailed
                                       case AtView => ViewFailed
                                       case _ => UnknownFailure
  {
  }

  // ---- the contents rollback aims at ----

  function SettlePoints(plan: Plan, points: seq<Point>): seq<Point> {
    if points != [] && forall i | 0 <= i < |points| :: points[i].tag == plan.target.tag
    then Retag(points, PointIds(points), plan.source.tag)
    else points
  }

  function SettleParents(plan: Plan, parents: seq<Parent>): seq<Parent> {
    if parents != [] && parents[0].tag == plan.target.tag
    then RetagParents(parents, plan.item, plan.source.tag)
    else parents
  }

  /** The unique file name index refuses to bring the item back once its old name was taken, if it sees both. */
  predicate ReturnBlocked(plan: Plan, row: Item, others: map<ItemId, Item>) {
    row.category == plan.targetId && row.entered && EntryTaken(others, row.filename, plan.sourceId)
  }

  /** What the unique file name index enforces among entered, unarchived items. */
  ghost predicate IndexUnique(items: map<ItemId, Item>) {
    forall i, k | i in items && k in items && i != k
                  && items[i].entered && !items[i].archived && items[k].entered && !items[k].archived ::
      items[i].category != items[k].category || items[i].filename != items[k].filename
  }

  /** A return is blocked exactly if the index would refuse the row at its source. */
  lemma ReturnBlockedIff(plan: Plan, row: Item, others: map<ItemId, Item>)
    requires plan.item !in others && !row.archived && row.category == plan.targetId
    requires IndexUnique(others)
    ensures ReturnBlocked(plan, row, others) <==> !IndexUnique(others[plan.item := row.(category := plan.sourceId)])
  {
    var items := others[plan.item := row.(category := plan.sourceId)];
    if ReturnBlocked(plan, row, others) {
      var k :| k in others && !others[k].archived && others[k].entered && others[k].category == plan.sourceId && others[k].filename == row.filename;
      assert items[k] == others[k] && items[plan.item].category == plan.sourceId;
    }
  }

  function SettleRow(plan: Plan, row: Item, others: map<ItemId, Item>): Item {
    if row.category == plan.targetId && !ReturnBlocked(plan, row, others)
    then row.(category := plan.sourceId)
    else row
  }

  function SettleView(plan: Plan, h: Holdings, others: map<ItemId, Item>): Option<View> {
    if ReturnBlocked(plan, h.row, others) then h.view
    else Some(Exported(plan.item, SettleRow(plan, h.row, others), others))
  }

  /** What one uninterrupted rollback leaves in the stores. */
  function Settle(plan: Plan, h: Holdings, others: map<ItemId, Item>): Holdings {
    Holdings(SettlePoints(plan, h.points), SettleParents(plan, h.parents),
             SettleRow(plan, h.row, others), SettleView(plan, h, others))
  }

  lemma SettlePointsIsFixed(plan: Plan, points: seq<Point>)
    ensures SettlePoints(plan, SettlePoints(plan, points)) == SettlePoints(plan, points)
  {
    var once := SettlePoints(plan, points);
    if points != [] && forall i | 0 <= i < |points| :: points[i].tag == plan.target.tag {
      forall i | 0 <= i < |points| ensures once[i] == points[i].(tag := plan.source.tag) {
        assert points[i].id in PointIds(points);
      }
      assert once[0].tag == plan.source.tag;
    }
  }

  /** A second rollback of the same job finds nothing left to do. */
  lemma SettleIsFixed(plan: Plan, h: Holdings, others: map<ItemId, Item>)
    requires ParentsAt(plan, h.parents, plan.source.tag) || ParentsAt(plan, h.parents, plan.target.tag)
    requires plan.sourceId != plan.targetId
    ensures Settle(plan, Settle(plan, h, others), others) == Settle(plan, h, others)
  {
    SettlePointsIsFixed(plan, h.points);
    assert SettleParents(plan, SettleParents(plan, h.parents)) == SettleParents(plan, h.parents);
  }

  /** Each store is as it was or as rollback wants it; a blocked return also leaves the view alone. */
  predicate PartlySettled(plan: Plan, before: Holdings, after: Holdings, others: map<ItemId, Item>) {
    && after.points in {before.points, SettlePoints(plan, before.points)}
    && after.parents in {before.parents, SettleParents(plan, before.parents)}
    && after.row in {before.row, SettleRow(plan, before.row, others)}
    && (ReturnBlocked(plan, before.row, others) ==> after.view == before.view)
  }

  /** Cutting a rollback off anywhere does not change what it has to reach. */
  lemma PartialRollbackKeepsGoal(plan: Plan, before: Holdings, after: Holdings, others: map<ItemId, Item>)
    requires ParentsAt(plan, before.parents, plan.source.tag) || ParentsAt(plan, before.parents, plan.target.tag)
    requires plan.sourceId != plan.targetId
    requires PartlySettled(plan, before, after, others)
    ensures Settle(plan, after, others) == Settle(plan, before, others)
  {
    SettlePointsIsFixed(plan, before.points);
    SettleIsFixed(plan, before, others);
  }

  /** A rollback before the item was committed reaches the source everywhere. */
  lemma RetaggedSettles(plan: Plan, h: Holdings, others: map<ItemId, Item>)
    requires PointsAt(plan, h.points, plan.target.tag) && ParentsAt(plan, h.parents, plan.target.tag)
    requires Pinned(plan, h.row) && h.row.category == plan.sourceId != plan.targetId
    ensures var s := Settle(plan, h, others); AllAtSource(plan, s) && ShowsPublished(s.view, plan.item, s.row, others)
  {
    ExportedShows(plan.item, SettleRow(plan, h.row, others), others);
    SettleReachesSourceIff(plan, h, others);
  }

  /**
   Exactly when rollback can reach the source everywhere: no torn payload write left the points
   on both sides, and the index does not have the item's old name by now.
   */
  lemma SettleReachesSourceIff(plan: Plan, h: Holdings, others: map<ItemId, Item>)
    requires InFlight(plan, h) && Pinned(plan, h.row) && plan.sourceId != plan.targetId
    ensures AllAtSource(plan, Settle(plan, h, others))
      <==> (PointsAt(plan, h.points, plan.source.tag) || PointsAt(plan, h.points, plan.target.tag))
           && !ReturnBlocked(plan, h.row, others)
  {
    var s := Settle(plan, h, others);
    if PointsAt(plan, h.points, plan.target.tag) {
      forall i | 0 <= i < |h.points| ensures s.points[i] == h.points[i].(tag := plan.source.tag) {
        assert h.points[i].id in PointIds(h.points);
      }
    }
  }
}
