/** The archive hooks: `useArchivedItems` (one listing of every archived
    row of the four hierarchy tables, newest first), `restoreItem` (clears
    `archivedAt`, and for a Category or SubCategory also brings back the
    descendants archived within two seconds of it) and the permanent deletes. */
module Archive {
  import opened Common
  import opened Types
  import opened Db
  import opened Cascade

  /** `'PROJECT' | 'EPIC' | 'TASK' | 'ACTION'`: a Project, Category,
      SubCategory or Task row. */
  datatype ItemType = ProjectType | EpicType | TaskType | ActionType

  datatype ArchiveItem = ArchiveItem(
    id: Id,
    kind: ItemType,
    name: string,
    projectId: Id,
    projectName: Option<string>,
    parentArchivedAt: Option<Time>,
    archivedAt: Time)

  // ---------------------------------------------------------------------
  // The listing

  /** `projectNameMap.get(id)`. */
  function ProjectName(projects: Table<Project>, id: Id): Option<string> {
    if id in projects.rows then Some(projects.rows[id].name) else None
  }

  /** `parent?.archivedAt ?? null` for each kind of parent. */
  function ProjectArchivedAt(projects: Table<Project>, id: Id): Option<Time> {
    if id in projects.rows then projects.rows[id].archivedAt else None
  }

  function CategoryArchivedAt(categories: Table<Category>, id: Id): Option<Time> {
    if id in categories.rows then categories.rows[id].archivedAt else None
  }

  function SubCategoryArchivedAt(subCategories: Table<SubCategory>, id: Id): Option<Time> {
    if id in subCategories.rows then subCategories.rows[id].archivedAt else None
  }

  /** The items pushed for the archived rows among `rs`, in the order of `rs`. */
  function ProjectEntries(rs: seq<Row<Project>>): seq<ArchiveItem> {
    if rs == [] then []
    else
      var r := rs[0];
      (match r.value.archivedAt
       case None => []
       case Some(at) => [ArchiveItem(r.id, ProjectType, r.value.name, r.id, Some(r.value.name), None, at)])
      + ProjectEntries(rs[1..])
  }

  function CategoryEntries(s: Store, rs: seq<Row<Category>>): seq<ArchiveItem> {
    if rs == [] then []
    else
      var r := rs[0];
      (match r.value.archivedAt
       case None => []
       case Some(at) =>
         [ArchiveItem(r.id, EpicType, r.value.name, r.value.projectId, ProjectName(s.projects, r.value.projectId),
                      ProjectArchivedAt(s.projects, r.value.projectId), at)])
      + CategoryEntries(s, rs[1..])
  }

  function SubCategoryEntries(s: Store, rs: seq<Row<SubCategory>>): seq<ArchiveItem> {
    if rs == [] then []
    else
      var r := rs[0];
      (match r.value.archivedAt
       case None => []
       case Some(at) =>
         [ArchiveItem(r.id, TaskType, r.value.name, r.value.projectId, ProjectName(s.projects, r.value.projectId),
                      CategoryArchivedAt(s.categories, r.value.categoryId), at)])
      + SubCategoryEntries(s, rs[1..])
  }

  function TaskEntries(s: Store, rs: seq<Row<Task>>): seq<ArchiveItem> {
    if rs == [] then []
    else
      var r := rs[0];
      (match r.value.archivedAt
       case None => []
       case Some(at) =>
         [ArchiveItem(r.id, ActionType, r.value.title, r.value.projectId, ProjectName(s.projects, r.value.projectId),
                      SubCategoryArchivedAt(s.subCategories, r.value.subCategoryId), at)])
      + TaskEntries(s, rs[1..])
  }

  /** `b.archivedAt.localeCompare(a.archivedAt)`: the later archival first. */
  predicate NewerArchivedFirst(a: ArchiveItem, b: ArchiveItem) {
    a.archivedAt >= b.archivedAt
  }

  /** `useArchivedItems()`: the projects, then the categories, SubCategories
      and tasks that are archived, each group in key order, sorted stably
      newest archival first. */
  function ArchivedItems(s: Store): (r: seq<ArchiveItem>)
    ensures Sorted(r, NewerArchivedFirst)
  {
    assert TotalPreorder(NewerArchivedFirst);
    SortBy(Entries(s), NewerArchivedFirst)
  }

  /** What an item of the listing says about the store: it names a stored,
      archived row of its kind, carries that row's name, project and
      archival time, and the archival time of the row's direct parent
      (none for a project, and none when the parent is missing). */
  ghost predicate Lists(s: Store, x: ArchiveItem) {
    match x.kind
    case ProjectType =>
      && x.id in s.projects.rows
      && s.projects.rows[x.id].archivedAt == Some(x.archivedAt)
      && x.name == s.projects.rows[x.id].name
      && x.projectId == x.id
      && x.projectName == Some(x.name)
      && x.parentArchivedAt == None
    case EpicType =>
      && x.id in s.categories.rows
      && s.categories.rows[x.id].archivedAt == Some(x.archivedAt)
      && x.name == s.categories.rows[x.id].name
      && x.projectId == s.categories.rows[x.id].projectId
      && x.projectName == (if x.projectId in s.projects.rows then Some(s.projects.rows[x.projectId].name) else None)
      && x.parentArchivedAt == (if x.projectId in s.projects.rows then s.projects.rows[x.projectId].archivedAt else None)
    case TaskType =>
      && x.id in s.subCategories.rows
      && s.subCategories.rows[x.id].archivedAt == Some(x.archivedAt)
      && x.name == s.subCategories.rows[x.id].name
      && x.projectId == s.subCategories.rows[x.id].projectId
      && x.projectName == (if x.projectId in s.projects.rows then Some(s.projects.rows[x.projectId].name) else None)
      && var parent := s.subCategories.rows[x.id].categoryId;
      x.parentArchivedAt == (if parent in s.categories.rows then s.categories.rows[parent].archivedAt else None)
    case ActionType =>
      && x.id in s.tasks.rows
      && s.tasks.rows[x.id].archivedAt == Some(x.archivedAt)
      && x.name == s.tasks.rows[x.id].title
      && x.projectId == s.tasks.rows[x.id].projectId
      && x.projectName == (if x.projectId in s.projects.rows then Some(s.projects.rows[x.projectId].name) else None)
      && var parent := s.tasks.rows[x.id].subCategoryId;
      x.parentArchivedAt == (if parent in s.subCategories.rows then s.subCategories.rows[parent].archivedAt else None)
  }

  /** Each of the four push loops lists exactly the archived rows it walks. */
  lemma {:induction false} ProjectEntriesExact(s: Store, rs: seq<Row<Project>>)
    requires forall r :: r in rs ==> r.id in s.projects.rows && s.projects.rows[r.id] == r.value
    ensures forall x :: x in ProjectEntries(rs) <==>
      x.kind == ProjectType && x.id in s.projects.rows && Row(x.id, s.projects.rows[x.id]) in rs && Lists(s, x)
  {
    if rs != [] {
      ProjectEntriesExact(s, rs[1..]);
      assert rs == [rs[0]] + rs[1..];
    }
  }

  lemma {:induction false} CategoryEntriesExact(s: Store, rs: seq<Row<Category>>)
    requires forall r :: r in rs ==> r.id in s.categories.rows && s.categories.rows[r.id] == r.value
    ensures forall x :: x in CategoryEntries(s, rs) <==>
      x.kind == EpicType && x.id in s.categories.rows && Row(x.id, s.categories.rows[x.id]) in rs && Lists(s, x)
  {
    if rs != [] {
      CategoryEntriesExact(s, rs[1..]);
      assert rs == [rs[0]] + rs[1..];
    }
  }

  lemma {:induction false} SubCategoryEntriesExact(s: Store, rs: seq<Row<SubCategory>>)
    requires forall r :: r in rs ==> r.id in s.subCategories.rows && s.subCategories.rows[r.id] == r.value
    ensures forall x :: x in SubCategoryEntries(s, rs) <==>
      x.kind == TaskType && x.id in s.subCategories.rows && Row(x.id, s.subCategories.rows[x.id]) in rs && Lists(s, x)
  {
    if rs != [] {
      SubCategoryEntriesExact(s, rs[1..]);
      assert rs == [rs[0]] + rs[1..];
    }
  }

  lemma {:induction false} TaskEntriesExact(s: Store, rs: seq<Row<Task>>)
    requires forall r :: r in rs ==> r.id in s.tasks.rows && s.tasks.rows[r.id] == r.value
    ensures forall x :: x in TaskEntries(s, rs) <==>
      x.kind == ActionType && x.id in s.tasks.rows && Row(x.id, s.tasks.rows[x.id]) in rs && Lists(s, x)
  {
    if rs != [] {
      TaskEntriesExact(s, rs[1..]);
      assert rs == [rs[0]] + rs[1..];
    }
  }

  /** The four push loops, one after the other, before the sort. */
  function Entries(s: Store): seq<ArchiveItem> {
    ProjectEntries(RowsOf(s.projects)) + CategoryEntries(s, RowsOf(s.categories))
    + SubCategoryEntries(s, RowsOf(s.subCategories)) + TaskEntries(s, RowsOf(s.tasks))
  }

  /** Each push loop over its whole table lists exactly the items of its kind. */
  lemma ProjectsListed(s: Store)
    requires s.Valid()
    ensures forall x :: x in ProjectEntries(RowsOf(s.projects)) <==> x.kind == ProjectType && Lists(s, x)
  {
    RowsOfExact(s.projects);
    ProjectEntriesExact(s, RowsOf(s.projects));
  }

  lemma CategoriesListed(s: Store)
    requires s.Valid()
    ensures forall x :: x in CategoryEntries(s, RowsOf(s.categories)) <==> x.kind == EpicType && Lists(s, x)
  {
    RowsOfExact(s.categories);
    CategoryEntriesExact(s, RowsOf(s.categories));
  }

  lemma SubCategoriesListed(s: Store)
    requires s.Valid()
    ensures forall x :: x in SubCategoryEntries(s, RowsOf(s.subCategories)) <==> x.kind == TaskType && Lists(s, x)
  {
    RowsOfExact(s.subCategories);
    SubCategoryEntriesExact(s, RowsOf(s.subCategories));
  }

  lemma TasksListed(s: Store)
    requires s.Valid()
    ensures forall x :: x in TaskEntries(s, RowsOf(s.tasks)) <==> x.kind == ActionType && Lists(s, x)
  {
    RowsOfExact(s.tasks);
    TaskEntriesExact(s, RowsOf(s.tasks));
  }

  lemma EntriesExact(s: Store)
    requires s.Valid()
    ensures forall x :: x in Entries(s) <==> Lists(s, x)
  {
    var ps, cs := ProjectEntries(RowsOf(s.projects)), CategoryEntries(s, RowsOf(s.categories));
    var us, ts := SubCategoryEntries(s, RowsOf(s.subCategories)), TaskEntries(s, RowsOf(s.tasks));
    ProjectsListed(s);
    CategoriesListed(s);
    SubCategoriesListed(s);
    TasksListed(s);
    forall x ensures x in Entries(s) <==> Lists(s, x) {
      assert x in Entries(s) <==> x in ps || x in cs || x in us || x in ts;
    }
  }

  /** The listing holds an item for every archived row of the four tables
      and nothing else, each telling the truth about its row and its row's parent. */
  lemma ArchivedItemsExact(s: Store)
    requires s.Valid()
    ensures forall x :: x in ArchivedItems(s) <==> Lists(s, x)
  {
    EntriesExact(s);
    assert TotalPreorder(NewerArchivedFirst);
    SortedMembers(Entries(s), NewerArchivedFirst);
  }

  // ---------------------------------------------------------------------
  // Restore

  function Abs(x: int): nat {
    if x < 0 then -x else x
  }

  /** `at && Math.abs(at - archivedTime) < 2000`: archived, strictly less
      than two seconds away from the restored item's archival. */
  predicate Within(at: Option<Time>, archivedTime: Time) {
    at.Some? && Abs(at.value - archivedTime) < 2000
  }

  /** The updates `restoreItem` writes: `archivedAt: null` and `updatedAt: now`,
      with `status: 'ACTIVE'` for a Category or SubCategory. A task's status
      is never touched. */
  function RestoredProject(p: Project, now: Time): Project {
    p.(archivedAt := None, updatedAt := now)
  }

  function RestoredCategory(c: Category, now: Time): Category {
    c.(archivedAt := None, status := Some(GroupStatus.Active), updatedAt := now)
  }

  function RestoredSubCategory(u: SubCategory, now: Time): SubCategory {
    u.(archivedAt := None, status := Some(GroupStatus.Active), updatedAt := now)
  }

  function RestoredTask(t: Task, now: Time): Task {
    t.(archivedAt := None, updatedAt := now)
  }

  /** Restores the stored rows whose keys are in `keys`. */
  function RestoreSubCategories(t: Table<SubCategory>, keys: set<Id>, now: Time): Table<SubCategory> {
    Table(map k | k in t.rows :: if k in keys then RestoredSubCategory(t.rows[k], now) else t.rows[k], t.next)
  }

  function RestoreTasks(t: Table<Task>, keys: set<Id>, now: Time): Table<Task> {
    Table(map k | k in t.rows :: if k in keys then RestoredTask(t.rows[k], now) else t.rows[k], t.next)
  }

  /** The category's SubCategories archived within the window. */
  function WindowedSubCategories(subCategories: Table<SubCategory>, categoryId: Id, archivedTime: Time): set<Id> {
    set k | k in subCategories.rows && subCategories.rows[k].categoryId == categoryId
                                     && Within(subCategories.rows[k].archivedAt, archivedTime)
  }

  /** The tasks under one of `subKeys` archived within the window. */
  function TasksUnder(tasks: Table<Task>, subKeys: set<Id>, archivedTime: Time): set<Id> {
    set k | k in tasks.rows && tasks.rows[k].subCategoryId in subKeys && Within(tasks.rows[k].archivedAt, archivedTime)
  }

  /** The store after `restoreItem(item)`. */
  function Restored(s: Store, item: ArchiveItem, now: Time): Store {
    match item.kind
    case ProjectType =>
      if item.id in s.projects.rows
      then s.(projects := s.projects.Replace(item.id, RestoredProject(s.projects.rows[item.id], now)))
      else s
    case EpicType =>
      var subKeys := WindowedSubCategories(s.subCategories, item.id, item.archivedAt);
      s.(categories :=
           if item.id in s.categories.rows
           then s.categories.Replace(item.id, RestoredCategory(s.categories.rows[item.id], now))
           else s.categories,
         subCategories := RestoreSubCategories(s.subCategories, subKeys, now),
         tasks := RestoreTasks(s.tasks, TasksUnder(s.tasks, subKeys, item.archivedAt), now))
    case TaskType =>
      s.(subCategories := RestoreSubCategories(s.subCategories, {item.id}, now),
         tasks := RestoreTasks(s.tasks, TasksUnder(s.tasks, {item.id}, item.archivedAt), now))
    case ActionType =>
      s.(tasks := RestoreTasks(s.tasks, {item.id}, now))
  }

  /** One more row restored, on top of rows restored already. */
  lemma RestoreSubCategoriesStep(t: Table<SubCategory>, keys: set<Id>, k: Id, now: Time)
    requires k in t.rows
    ensures var r := RestoreSubCategories(t, keys, now);
      r.Replace(k, RestoredSubCategory(r.rows[k], now)) == RestoreSubCategories(t, keys + {k}, now)
  {
    var r := RestoreSubCategories(t, keys, now);
    assert r.Replace(k, RestoredSubCategory(r.rows[k], now)).rows == RestoreSubCategories(t, keys + {k}, now).rows;
  }

  lemma RestoreTasksStep(t: Table<Task>, keys: set<Id>, k: Id, now: Time)
    requires k in t.rows
    ensures var r := RestoreTasks(t, keys, now);
      r.Replace(k, RestoredTask(r.rows[k], now)) == RestoreTasks(t, keys + {k}, now)
  {
    var r := RestoreTasks(t, keys, now);
    assert r.Replace(k, RestoredTask(r.rows[k], now)).rows == RestoreTasks(t, keys + {k}, now).rows;
  }

  /** The listed keys of `t` that are archived within the window. */
  function WindowedTaskKeys(t: Table<Task>, ids: seq<Id>, archivedTime: Time): set<Id> {
    set k | k in ids && k in t.rows && Within(t.rows[k].archivedAt, archivedTime)
  }

  function WindowedSubCategoryKeys(t: Table<SubCategory>, ids: seq<Id>, archivedTime: Time): set<Id> {
    set k | k in ids && k in t.rows && Within(t.rows[k].archivedAt, archivedTime)
  }

  lemma WindowedTaskKeysSnoc(t: Table<Task>, ids: seq<Id>, k: Id, archivedTime: Time)
    requires k in t.rows
    ensures WindowedTaskKeys(t, ids + [k], archivedTime)
      == WindowedTaskKeys(t, ids, archivedTime) + (if Within(t.rows[k].archivedAt, archivedTime) then {k} else {})
  {
  }

  lemma WindowedSubCategoryKeysSnoc(t: Table<SubCategory>, ids: seq<Id>, k: Id, archivedTime: Time)
    requires k in t.rows
    ensures WindowedSubCategoryKeys(t, ids + [k], archivedTime)
      == WindowedSubCategoryKeys(t, ids, archivedTime) + (if Within(t.rows[k].archivedAt, archivedTime) then {k} else {})
  {
  }

  /** The inner loop: `tasks.where('subCategoryId').equals(sid)`, then every
      task of that list archived within the window is restored. */
  method RestoreTasksOf(tasks: Table<Task>, sid: Id, archivedTime: Time, now: Time) returns (r: Table<Task>)
    requires tasks.Valid()
    ensures r == RestoreTasks(tasks, TasksUnder(tasks, {sid}, archivedTime), now)
  {
    var taskList := TaskIds(tasks, SubCategoryRoot(sid));
    r := tasks;
    var j := 0;
    while j < |taskList|
      invariant 0 <= j <= |taskList|
      invariant r == RestoreTasks(tasks, WindowedTaskKeys(tasks, taskList[..j], archivedTime), now)
    {
      var tid := taskList[j];
      assert taskList[..j + 1] == taskList[..j] + [tid];
      WindowedTaskKeysSnoc(tasks, taskList[..j], tid, archivedTime);
      if Within(tasks.rows[tid].archivedAt, archivedTime) {
        RestoreTasksStep(tasks, WindowedTaskKeys(tasks, taskList[..j], archivedTime), tid, now);
        r := r.Replace(tid, RestoredTask(r.rows[tid], now));
      }
      j := j + 1;
    }
    assert taskList[..j] == taskList;
    WindowedTasksOfSubCategory(tasks, sid, archivedTime);
  }

  lemma WindowedTasksOfSubCategory(tasks: Table<Task>, sid: Id, archivedTime: Time)
    requires tasks.Valid()
    ensures WindowedTaskKeys(tasks, TaskIds(tasks, SubCategoryRoot(sid)), archivedTime) == TasksUnder(tasks, {sid}, archivedTime)
  {
  }

  /** Restoring the windowed tasks of one more SubCategory, on top of the
      tasks of the SubCategories handled so far: the rows restored already
      have lost their `archivedAt`, so they are not picked again. */
  lemma TasksUnderStep(t: Table<Task>, subKeys: set<Id>, sid: Id, archivedTime: Time, now: Time)
    ensures var t1 := RestoreTasks(t, TasksUnder(t, subKeys, archivedTime), now);
      RestoreTasks(t1, TasksUnder(t1, {sid}, archivedTime), now)
        == RestoreTasks(t, TasksUnder(t, subKeys + {sid}, archivedTime), now)
  {
    var t1 := RestoreTasks(t, TasksUnder(t, subKeys, archivedTime), now);
    var lhs := RestoreTasks(t1, TasksUnder(t1, {sid}, archivedTime), now);
    var rhs := RestoreTasks(t, TasksUnder(t, subKeys + {sid}, archivedTime), now);
    forall k | k in t.rows ensures lhs.rows[k] == rhs.rows[k] {
      if k in TasksUnder(t, subKeys, archivedTime) {
        assert k !in TasksUnder(t1, {sid}, archivedTime);
      }
    }
    assert lhs.rows == rhs.rows;
  }

  /** The SubCategory loop of an EPIC restore: every listed SubCategory
      archived within the window is restored, then its own windowed tasks. */
  method RestoreBranch(subCategories: Table<SubCategory>, tasks: Table<Task>, subIds: seq<Id>, archivedTime: Time, now: Time)
    returns (subs: Table<SubCategory>, ts: Table<Task>)
    requires tasks.Valid()
    requires forall k :: k in subIds ==> k in subCategories.rows
    ensures subs == RestoreSubCategories(subCategories, WindowedSubCategoryKeys(subCategories, subIds, archivedTime), now)
    ensures ts == RestoreTasks(tasks, TasksUnder(tasks, WindowedSubCategoryKeys(subCategories, subIds, archivedTime), archivedTime), now)
  {
    subs, ts := subCategories, tasks;
    var i := 0;
    while i < |subIds|
      invariant 0 <= i <= |subIds|
      invariant subs == RestoreSubCategories(subCategories, WindowedSubCategoryKeys(subCategories, subIds[..i], archivedTime), now)
      invariant ts == RestoreTasks(tasks, TasksUnder(tasks, WindowedSubCategoryKeys(subCategories, subIds[..i], archivedTime), archivedTime), now)
      invariant ts.Valid()
    {
      var sid := subIds[i];
      assert subIds[..i + 1] == subIds[..i] + [sid];
      var done := WindowedSubCategoryKeys(subCategories, subIds[..i], archivedTime);
      WindowedSubCategoryKeysSnoc(subCategories, subIds[..i], sid, archivedTime);
      if Within(subCategories.rows[sid].archivedAt, archivedTime) {
        RestoreSubCategoriesStep(subCategories, done, sid, now);
        subs := subs.Replace(sid, RestoredSubCategory(subs.rows[sid], now));
        TasksUnderStep(tasks, done, sid, archivedTime, now);
        ts := RestoreTasksOf(ts, sid, archivedTime, now);
      }
      i := i + 1;
    }
    assert subIds[..i] == subIds;
  }

  lemma WindowedSubCategoriesOfCategory(subCategories: Table<SubCategory>, cid: Id, archivedTime: Time)
    requires subCategories.Valid()
    ensures WindowedSubCategoryKeys(subCategories, SubCategoryIds(subCategories, CategoryRoot(cid)), archivedTime)
      == WindowedSubCategories(subCategories, cid, archivedTime)
  {
  }

  /** A single-row restore, as the `update` of one key. */
  lemma RestoreOne(subCategories: Table<SubCategory>, tasks: Table<Task>, k: Id, now: Time)
    ensures RestoreSubCategories(subCategories, {k}, now)
      == if k in subCategories.rows then subCategories.Replace(k, RestoredSubCategory(subCategories.rows[k], now)) else subCategories
    ensures RestoreTasks(tasks, {k}, now)
      == if k in tasks.rows then tasks.Replace(k, RestoredTask(tasks.rows[k], now)) else tasks
  {
    assert RestoreSubCategories(subCategories, {k}, now).rows
      == (if k in subCategories.rows then subCategories.Replace(k, RestoredSubCategory(subCategories.rows[k], now)) else subCategories).rows;
    assert RestoreTasks(tasks, {k}, now).rows
      == (if k in tasks.rows then tasks.Replace(k, RestoredTask(tasks.rows[k], now)) else tasks).rows;
  }

  /** `restoreItem(item)`, one transaction. */
  method RestoreItem(db: Database, item: ArchiveItem, now: Time)
    requires db.Valid()
    modifies db
    ensures db.Valid()
    ensures db.projects == Restored(old(db.Snapshot()), item, now).projects
    ensures db.categories == Restored(old(db.Snapshot()), item, now).categories
    ensures db.subCategories == Restored(old(db.Snapshot()), item, now).subCategories
    ensures db.tasks == Restored(old(db.Snapshot()), item, now).tasks
    ensures db.taskHistory == Restored(old(db.Snapshot()), item, now).taskHistory
  {
    match item.kind
    case ProjectType =>
      if item.id in db.projects.rows {
        db.projects := db.projects.Replace(item.id, RestoredProject(db.projects.rows[item.id], now));
      }
    case EpicType =>
      if item.id in db.categories.rows {
        db.categories := db.categories.Replace(item.id, RestoredCategory(db.categories.rows[item.id], now));
      }
      var subIds := SubCategoryIds(db.subCategories, CategoryRoot(item.id));
      WindowedSubCategoriesOfCategory(db.subCategories, item.id, item.archivedAt);
      var subs, ts := RestoreBranch(db.subCategories, db.tasks, subIds, item.archivedAt, now);
      db.subCategories, db.tasks := subs, ts;
    case TaskType =>
      RestoreOne(db.subCategories, db.tasks, item.id, now);
      if item.id in db.subCategories.rows {
        db.subCategories := db.subCategories.Replace(item.id, RestoredSubCategory(db.subCategories.rows[item.id], now));
      }
      db.tasks := RestoreTasksOf(db.tasks, item.id, item.archivedAt, now);
    case ActionType =>
      RestoreOne(db.subCategories, db.tasks, item.id, now);
      if item.id in db.tasks.rows {
        db.tasks := db.tasks.Replace(item.id, RestoredTask(db.tasks.rows[item.id], now));
      }
  }

  /** No restore path adds or removes a row, touches the history, or
      changes a task in any way but clearing `archivedAt` and stamping
      `updatedAt` (in particular never its `status`). */
  lemma RestoreTouchesLittle(s: Store, item: ArchiveItem, now: Time)
    ensures var r := Restored(s, item, now);
      && r.projects.rows.Keys == s.projects.rows.Keys && r.categories.rows.Keys == s.categories.rows.Keys
      && r.subCategories.rows.Keys == s.subCategories.rows.Keys && r.tasks.rows.Keys == s.tasks.rows.Keys
      && r.taskHistory == s.taskHistory
      && forall k :: k in s.tasks.rows ==>
           r.tasks.rows[k] == s.tasks.rows[k] || r.tasks.rows[k] == s.tasks.rows[k].(archivedAt := None, updatedAt := now)
  {
  }

  /** Restoring a PROJECT or an ACTION changes that row alone: its
      `archivedAt` is cleared and its `updatedAt` stamped. */
  lemma RestoreSingleRow(s: Store, item: ArchiveItem, now: Time)
    requires item.kind == ProjectType || item.kind == ActionType
    ensures var r := Restored(s, item, now);
      && (item.kind == ProjectType ==>
            && r.categories == s.categories && r.subCategories == s.subCategories && r.tasks == s.tasks
            && (forall k :: k in s.projects.rows && k != item.id ==> r.projects.rows[k] == s.projects.rows[k])
            && (item.id in s.projects.rows ==>
                  r.projects.rows[item.id] == s.projects.rows[item.id].(archivedAt := None, updatedAt := now)))
      && (item.kind == ActionType ==>
            && r.projects == s.projects && r.categories == s.categories && r.subCategories == s.subCategories
            && (forall k :: k in s.tasks.rows && k != item.id ==> r.tasks.rows[k] == s.tasks.rows[k])
            && (item.id in s.tasks.rows ==>
                  r.tasks.rows[item.id] == s.tasks.rows[item.id].(archivedAt := None, updatedAt := now)))
  {
  }

  /** Restoring an EPIC reactivates the category, and brings back exactly
      its SubCategories archived within the window, and under those alone
      the tasks archived within the window. */
  lemma EpicRestoreScope(s: Store, item: ArchiveItem, now: Time)
    requires item.kind == EpicType
    ensures var r := Restored(s, item, now);
      && r.projects == s.projects
      && (item.id in s.categories.rows ==>
            && r.categories.rows[item.id].archivedAt == None
            && r.categories.rows[item.id].status == Some(GroupStatus.Active))
      && (forall k :: k in s.categories.rows && k != item.id ==> r.categories.rows[k] == s.categories.rows[k])
      && (forall k :: k in s.subCategories.rows ==>
            (r.subCategories.rows[k] != s.subCategories.rows[k] <==>
               s.subCategories.rows[k].categoryId == item.id && Within(s.subCategories.rows[k].archivedAt, item.archivedAt)))
      && (forall k :: k in s.subCategories.rows && r.subCategories.rows[k] != s.subCategories.rows[k] ==>
            r.subCategories.rows[k].archivedAt == None && r.subCategories.rows[k].status == Some(GroupStatus.Active))
      && (forall k :: k in s.tasks.rows ==>
            (r.tasks.rows[k] != s.tasks.rows[k] <==>
               && s.tasks.rows[k].subCategoryId in s.subCategories.rows
               && s.subCategories.rows[s.tasks.rows[k].subCategoryId].categoryId == item.id
               && Within(s.subCategories.rows[s.tasks.rows[k].subCategoryId].archivedAt, item.archivedAt)
               && Within(s.tasks.rows[k].archivedAt, item.archivedAt)))
  {
  }

  /** Restoring a TASK (a SubCategory) reactivates it and brings back
      exactly its tasks archived within the window. */
  lemma SubCategoryRestoreScope(s: Store, item: ArchiveItem, now: Time)
    requires item.kind == TaskType
    ensures var r := Restored(s, item, now);
      && r.projects == s.projects && r.categories == s.categories
      && (item.id in s.subCategories.rows ==>
            && r.subCategories.rows[item.id].archivedAt == None
            && r.subCategories.rows[item.id].status == Some(GroupStatus.Active))
      && (forall k :: k in s.subCategories.rows && k != item.id ==> r.subCategories.rows[k] == s.subCategories.rows[k])
      && (forall k :: k in s.tasks.rows ==>
            (r.tasks.rows[k] != s.tasks.rows[k] <==>
               s.tasks.rows[k].subCategoryId == item.id && Within(s.tasks.rows[k].archivedAt, item.archivedAt)))
  {
  }

  /** The restored item's own row is no longer archived. */
  lemma RestoreClearsItem(s: Store, item: ArchiveItem, now: Time)
    ensures var r := Restored(s, item, now);
      match item.kind
      case ProjectType => item.id in r.projects.rows ==> r.projects.rows[item.id].archivedAt == None
      case EpicType => item.id in r.categories.rows ==> r.categories.rows[item.id].archivedAt == None
      case TaskType => item.id in r.subCategories.rows ==> r.subCategories.rows[item.id].archivedAt == None
      case ActionType => item.id in r.tasks.rows ==> r.tasks.rows[item.id].archivedAt == None
  {
  }

  /** A restored item leaves the listing. */
  lemma RestoreUnlists(s: Store, item: ArchiveItem, now: Time)
    requires s.Valid()
    ensures forall x :: x in ArchivedItems(Restored(s, item, now)) ==> !(x.kind == item.kind && x.id == item.id)
  {
    var r := Restored(s, item, now);
    RestoreTouchesLittle(s, item, now);
    assert r.Valid();
    RestoreClearsItem(s, item, now);
    ArchivedItemsExact(r);
    forall x | x in ArchivedItems(r) ensures !(x.kind == item.kind && x.id == item.id) {
      assert Lists(r, x);
    }
  }

  // ---------------------------------------------------------------------
  // Permanent deletion

  /** The cascade a permanent delete of `item` runs. */
  function RootOf(item: ArchiveItem): Root {
    match item.kind
    case ProjectType => ProjectRoot(item.id)
    case EpicType => CategoryRoot(item.id)
    case TaskType => SubCategoryRoot(item.id)
    case ActionType => TaskRoot(item.id)
  }

  /** `permanentlyDelete(item)`: the cascade from the item's row, in one transaction. */
  method PermanentlyDelete(db: Database, item: ArchiveItem)
    requires db.Valid()
    modifies db
    ensures db.Valid()
    ensures db.Snapshot() == Cascade.Cascade(old(db.Snapshot()), RootOf(item))
  {
    match item.kind
    case ProjectType => DeleteProject(db, item.id);
    case EpicType => DeleteCategory(db, item.id);
    case TaskType => DeleteSubCategory(db, item.id);
    case ActionType => DeleteTask(db, item.id);
  }

  /** The store after the cascades of `items`, one after the other. */
  function DeletedAll(s: Store, items: seq<ArchiveItem>): Store
    decreases |items|
  {
    if items == [] then s
    else Cascade.Cascade(DeletedAll(s, items[..|items| - 1]), RootOf(items[|items| - 1]))
  }

  /** How many items `bulkPermanentlyDelete` gets through when the delete of
      the item at `failAt` (if any) throws: that one is rolled back and the
      loop stops there. */
  function Completed(items: seq<ArchiveItem>, failAt: Option<nat>): (n: nat)
    ensures n <= |items|
    ensures failAt.Some? && failAt.value < |items| ==> n == failAt.value
  {
    if failAt.Some? && failAt.value < |items| then failAt.value else |items|
  }

  /** `bulkPermanentlyDelete(items)`: the items deleted in list order,
      with no error handling, so a failing item stops the rest. */
  method BulkPermanentlyDelete(db: Database, items: seq<ArchiveItem>, failAt: Option<nat>)
    requires db.Valid()
    modifies db
    ensures db.Valid()
    ensures db.Snapshot() == DeletedAll(old(db.Snapshot()), items[..Completed(items, failAt)])
  {
    var i := 0;
    while i < |items| && failAt != Some(i)
      invariant 0 <= i <= Completed(items, failAt)
      invariant db.Valid()
      invariant db.Snapshot() == DeletedAll(old(db.Snapshot()), items[..i])
    {
      assert items[..i + 1][..i] == items[..i];
      PermanentlyDelete(db, items[i]);
      i := i + 1;
    }
  }

  /** The row an item names is gone. */
  ghost predicate Gone(s: Store, item: ArchiveItem) {
    match item.kind
    case ProjectType => item.id !in s.projects.rows
    case EpicType => item.id !in s.categories.rows
    case TaskType => item.id !in s.subCategories.rows
    case ActionType => item.id !in s.tasks.rows
  }

  /** After a bulk delete on a consistent store, every deleted item's row is
      gone and the store still has no dangling reference. */
  lemma {:induction false} DeletedAllRemovesItems(s: Store, items: seq<ArchiveItem>)
    requires s.Consistent()
    ensures DeletedAll(s, items).Consistent()
    ensures forall x :: x in items ==> Gone(DeletedAll(s, items), x)
    decreases |items|
  {
    if items != [] {
      var front := items[..|items| - 1];
      var last := items[|items| - 1];
      DeletedAllRemovesItems(s, front);
      CascadeConsistent(DeletedAll(s, front), RootOf(last));
      assert items == front + [last];
      forall x | x in items ensures Gone(DeletedAll(s, items), x) {
        if x in front {
          assert Gone(DeletedAll(s, front), x);
        }
      }
    }
  }
}
