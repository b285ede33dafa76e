/** Cascading deletion. `deleteProject`, `deleteCategory`,
    `deleteSubCategory` and `deleteTask` (and the four branches of
    `permanentlyDelete`, which repeat them) each remove a row together with
    every row below it: first the history of the doomed tasks, one task at a
    time, then the tasks, the SubCategories, the categories and the row
    itself, in one transaction. */
module Cascade {
  import opened Common
  import opened Types
  import opened Db

  /** The row a cascading delete starts from. */
  datatype Root =
    | ProjectRoot(id: Id)
    | CategoryRoot(id: Id)
    | SubCategoryRoot(id: Id)
    | TaskRoot(id: Id)

  /** The index test the delete path runs on the tasks table. */
  predicate TaskMatches(k: Id, t: Task, root: Root) {
    match root
    case ProjectRoot(id) => t.projectId == id
    case CategoryRoot(id) => t.categoryId == id
    case SubCategoryRoot(id) => t.subCategoryId == id
    case TaskRoot(id) => k == id
  }

  /** The index test the delete path runs on the SubCategories table. */
  predicate SubCategoryMatches(u: SubCategory, root: Root) {
    match root
    case ProjectRoot(id) => u.projectId == id
    case CategoryRoot(id) => u.categoryId == id
    case _ => false
  }

  /** The keys of the tasks the cascade deletes. */
  function TaskKeys(tasks: Table<Task>, root: Root): set<Id> {
    match root
    case TaskRoot(id) => {id}
    case _ => set k | k in tasks.rows && TaskMatches(k, tasks.rows[k], root)
  }

  /** The keys of the SubCategories the cascade deletes. */
  function SubCategoryKeys(subCategories: Table<SubCategory>, root: Root): set<Id> {
    match root
    case SubCategoryRoot(id) => {id}
    case TaskRoot(_) => {}
    case _ => set k | k in subCategories.rows && SubCategoryMatches(subCategories.rows[k], root)
  }

  /** The keys of the categories the cascade deletes. */
  function CategoryKeys(categories: Table<Category>, root: Root): set<Id> {
    match root
    case ProjectRoot(id) => set k | k in categories.rows && categories.rows[k].projectId == id
    case CategoryRoot(id) => {id}
    case _ => {}
  }

  /** The ids the delete path reads before its transaction: the tasks it
      matches, in key order. */
  function TaskIds(tasks: Table<Task>, root: Root): seq<Id> {
    IdsWhere(tasks, (r: Row<Task>) => TaskMatches(r.id, r.value, root))
  }

  function SubCategoryIds(subCategories: Table<SubCategory>, root: Root): seq<Id> {
    IdsWhere(subCategories, (r: Row<SubCategory>) => SubCategoryMatches(r.value, root))
  }

  function ProjectCategoryIds(categories: Table<Category>, id: Id): seq<Id> {
    IdsWhere(categories, (r: Row<Category>) => r.value.projectId == id)
  }

  /** The ids read before the transaction name exactly the rows the
      transaction's index deletes remove. */
  lemma IdsAreKeys(s: Store, root: Root)
    requires s.Valid()
    ensures !root.TaskRoot? ==> Elements(TaskIds(s.tasks, root)) == TaskKeys(s.tasks, root)
    ensures root.ProjectRoot? || root.CategoryRoot? ==>
      Elements(SubCategoryIds(s.subCategories, root)) == SubCategoryKeys(s.subCategories, root)
    ensures root.ProjectRoot? ==>
      Elements(ProjectCategoryIds(s.categories, root.id)) == CategoryKeys(s.categories, root)
  {
  }

  /** The keys of the projects the cascade deletes. */
  function ProjectKeys(root: Root): set<Id> {
    if root.ProjectRoot? then {root.id} else {}
  }

  /** `taskHistory.where('taskId').equals(tid).delete()` for every `tid` of `ids`. */
  function WithoutHistoryOf(history: Table<TaskHistory>, ids: set<Id>): Table<TaskHistory> {
    Table(map k | k in history.rows && history.rows[k].taskId !in ids :: history.rows[k], history.next)
  }

  /** The store after the cascade from `root`. */
  function Cascade(s: Store, root: Root): Store {
    Store(
      s.projects.Delete(ProjectKeys(root)),
      s.categories.Delete(CategoryKeys(s.categories, root)),
      s.subCategories.Delete(SubCategoryKeys(s.subCategories, root)),
      s.tasks.Delete(TaskKeys(s.tasks, root)),
      WithoutHistoryOf(s.taskHistory, TaskKeys(s.tasks, root)))
  }

  // The subtree below a root, followed through the parent links
  // (`categoryId`, `subCategoryId`) rather than the copied index fields.

  ghost predicate CategoryInTree(s: Store, k: Id, root: Root) {
    && k in s.categories.rows
    && (root == CategoryRoot(k) || (root.ProjectRoot? && s.categories.rows[k].projectId == root.id))
  }

  ghost predicate SubCategoryInTree(s: Store, k: Id, root: Root) {
    && k in s.subCategories.rows
    && (root == SubCategoryRoot(k) || CategoryInTree(s, s.subCategories.rows[k].categoryId, root))
  }

  ghost predicate TaskInTree(s: Store, k: Id, root: Root) {
    && k in s.tasks.rows
    && (root == TaskRoot(k) || SubCategoryInTree(s, s.tasks.rows[k].subCategoryId, root))
  }

  /** On a consistent store the index lookups of the delete paths find
      exactly the tasks of the subtree. */
  lemma TaskKeysAreSubtree(s: Store, root: Root)
    requires s.Consistent()
    ensures forall k :: k in s.tasks.rows ==> (k in TaskKeys(s.tasks, root) <==> TaskInTree(s, k, root))
  {
    forall k | k in s.tasks.rows ensures k in TaskKeys(s.tasks, root) <==> TaskInTree(s, k, root) {
      var t := s.tasks.rows[k];
      assert t.subCategoryId in s.subCategories.rows;
      var u := s.subCategories.rows[t.subCategoryId];
      assert u.categoryId in s.categories.rows;
    }
  }

  /** On a consistent store the index lookups find exactly the SubCategories of the subtree. */
  lemma SubCategoryKeysAreSubtree(s: Store, root: Root)
    requires s.Consistent()
    ensures forall k :: k in s.subCategories.rows ==>
      (k in SubCategoryKeys(s.subCategories, root) <==> SubCategoryInTree(s, k, root))
  {
    forall k | k in s.subCategories.rows
      ensures k in SubCategoryKeys(s.subCategories, root) <==> SubCategoryInTree(s, k, root)
    {
      assert s.subCategories.rows[k].categoryId in s.categories.rows;
    }
  }

  /** The cascade removes exactly the subtree below the root and the history
      of its tasks; every other row stays, unchanged. */
  lemma {:induction false} CascadeRemovesSubtree(s: Store, root: Root)
    requires s.Consistent()
    ensures var r := Cascade(s, root);
      && (forall k :: k in r.projects.rows <==> k in s.projects.rows && root != ProjectRoot(k))
      && (forall k :: k in r.categories.rows <==> k in s.categories.rows && !CategoryInTree(s, k, root))
      && (forall k :: k in r.subCategories.rows <==> k in s.subCategories.rows && !SubCategoryInTree(s, k, root))
      && (forall k :: k in r.tasks.rows <==> k in s.tasks.rows && !TaskInTree(s, k, root))
      && (forall k :: k in r.taskHistory.rows <==>
            k in s.taskHistory.rows && !TaskInTree(s, s.taskHistory.rows[k].taskId, root))
  {
    TaskKeysAreSubtree(s, root);
    SubCategoryKeysAreSubtree(s, root);
  }

  /** A row the cascade keeps has the value it had. */
  lemma CascadeKeepsValues(s: Store, root: Root)
    ensures var r := Cascade(s, root);
      && (forall k :: k in r.projects.rows ==> r.projects.rows[k] == s.projects.rows[k])
      && (forall k :: k in r.categories.rows ==> r.categories.rows[k] == s.categories.rows[k])
      && (forall k :: k in r.subCategories.rows ==> r.subCategories.rows[k] == s.subCategories.rows[k])
      && (forall k :: k in r.tasks.rows ==> r.tasks.rows[k] == s.tasks.rows[k])
      && (forall k :: k in r.taskHistory.rows ==> r.taskHistory.rows[k] == s.taskHistory.rows[k])
  {
  }

  /** The cascade leaves no dangling reference: a consistent store stays consistent. */
  lemma CascadeConsistent(s: Store, root: Root)
    requires s.Consistent()
    ensures Cascade(s, root).Consistent()
  {
    var r := Cascade(s, root);
    forall k | k in r.subCategories.rows
      ensures r.subCategories.rows[k].categoryId in r.categories.rows
    {
      var u := s.subCategories.rows[k];
      assert u.categoryId in s.categories.rows;
    }
    forall k | k in r.tasks.rows
      ensures r.tasks.rows[k].subCategoryId in r.subCategories.rows
    {
      var t := s.tasks.rows[k];
      assert t.subCategoryId in s.subCategories.rows;
      assert s.subCategories.rows[t.subCategoryId].categoryId in s.categories.rows;
    }
    forall k | k in r.taskHistory.rows
      ensures r.taskHistory.rows[k].taskId in r.tasks.rows
    {
    }
  }

  lemma WithoutHistoryStep(history: Table<TaskHistory>, ids: set<Id>, tid: Id)
    ensures WithoutHistoryOf(WithoutHistoryOf(history, ids), {tid}) == WithoutHistoryOf(history, ids + {tid})
  {
    var a := WithoutHistoryOf(WithoutHistoryOf(history, ids), {tid});
    var b := WithoutHistoryOf(history, ids + {tid});
    assert a.rows.Keys == b.rows.Keys;
  }

  /** The loop at the start of every delete transaction: for each listed
      task, delete its history rows. */
  method DeleteHistory(history: Table<TaskHistory>, taskIds: seq<Id>) returns (h: Table<TaskHistory>)
    ensures h == WithoutHistoryOf(history, Elements(taskIds))
  {
    h := history;
    var i := 0;
    while i < |taskIds|
      invariant 0 <= i <= |taskIds|
      invariant h == WithoutHistoryOf(history, Elements(taskIds[..i]))
    {
      WithoutHistoryStep(history, Elements(taskIds[..i]), taskIds[i]);
      assert Elements(taskIds[..i + 1]) == Elements(taskIds[..i]) + {taskIds[i]} by {
        assert taskIds[..i + 1] == taskIds[..i] + [taskIds[i]];
      }
      h := WithoutHistoryOf(h, {taskIds[i]});
      i := i + 1;
    }
    assert taskIds[..i] == taskIds;
  }

  lemma DeleteNothing<T>(t: Table<T>)
    ensures t.Delete({}) == t
  {
    assert t.rows - {} == t.rows;
  }

  /** `deleteProject(id)` (and `permanentlyDelete` of a PROJECT item). */
  method DeleteProject(db: Database, id: Id)
    requires db.Valid()
    modifies db
    ensures db.Valid()
    ensures db.projects == Cascade(old(db.Snapshot()), ProjectRoot(id)).projects
    ensures db.categories == Cascade(old(db.Snapshot()), ProjectRoot(id)).categories
    ensures db.subCategories == Cascade(old(db.Snapshot()), ProjectRoot(id)).subCategories
    ensures db.tasks == Cascade(old(db.Snapshot()), ProjectRoot(id)).tasks
    ensures db.taskHistory == Cascade(old(db.Snapshot()), ProjectRoot(id)).taskHistory
  {
    var root := ProjectRoot(id);
    var catIds := ProjectCategoryIds(db.categories, id);
    var subIds := SubCategoryIds(db.subCategories, root);
    var taskIds := TaskIds(db.tasks, root);
    IdsAreKeys(db.Snapshot(), root);

    var history := DeleteHistory(db.taskHistory, taskIds);
    var tasks := db.tasks.Delete(TaskKeys(db.tasks, root));
    var subCategories := db.subCategories;
    if |subIds| > 0 {
      subCategories := subCategories.Delete(Elements(subIds));
    } else {
      DeleteNothing(subCategories);
    }
    ghost var catKeys := CategoryKeys(db.categories, root);
    assert Elements(catIds) == catKeys;
    var categories := db.categories;
    if |catIds| > 0 {
      categories := categories.Delete(Elements(catIds));
    } else {
      assert catKeys == {};
      DeleteNothing(categories);
    }
    assert categories == db.categories.Delete(catKeys);
    var projects := db.projects.Delete({id});
    ghost var c := Cascade(db.Snapshot(), root);
    assert projects == c.projects && categories == c.categories && subCategories == c.subCategories;
    assert tasks == c.tasks && history == c.taskHistory;
    assert c.Valid();
    db.projects, db.categories, db.subCategories, db.tasks, db.taskHistory
      := projects, categories, subCategories, tasks, history;
  }

  /** `deleteCategory(id)` (and `permanentlyDelete` of an EPIC item). */
  method DeleteCategory(db: Database, id: Id)
    requires db.Valid()
    modifies db
    ensures db.Valid()
    ensures db.projects == Cascade(old(db.Snapshot()), CategoryRoot(id)).projects
    ensures db.categories == Cascade(old(db.Snapshot()), CategoryRoot(id)).categories
    ensures db.subCategories == Cascade(old(db.Snapshot()), CategoryRoot(id)).subCategories
    ensures db.tasks == Cascade(old(db.Snapshot()), CategoryRoot(id)).tasks
    ensures db.taskHistory == Cascade(old(db.Snapshot()), CategoryRoot(id)).taskHistory
  {
    var subIds := SubCategoryIds(db.subCategories, CategoryRoot(id));
    var taskIds := TaskIds(db.tasks, CategoryRoot(id));
    IdsAreKeys(db.Snapshot(), CategoryRoot(id));
    DeleteNothing(db.projects);

    db.taskHistory := DeleteHistory(db.taskHistory, taskIds);
    db.tasks := db.tasks.Delete(TaskKeys(db.tasks, CategoryRoot(id)));
    if |subIds| > 0 {
      db.subCategories := db.subCategories.Delete(Elements(subIds));
    } else {
      DeleteNothing(db.subCategories);
    }
    db.categories := db.categories.Delete({id});
  }

  /** `deleteSubCategory(id)` (and `permanentlyDelete` of a TASK item). */
  method DeleteSubCategory(db: Database, id: Id)
    requires db.Valid()
    modifies db
    ensures db.Valid()
    ensures db.projects == Cascade(old(db.Snapshot()), SubCategoryRoot(id)).projects
    ensures db.categories == Cascade(old(db.Snapshot()), SubCategoryRoot(id)).categories
    ensures db.subCategories == Cascade(old(db.Snapshot()), SubCategoryRoot(id)).subCategories
    ensures db.tasks == Cascade(old(db.Snapshot()), SubCategoryRoot(id)).tasks
    ensures db.taskHistory == Cascade(old(db.Snapshot()), SubCategoryRoot(id)).taskHistory
  {
    var taskIds := TaskIds(db.tasks, SubCategoryRoot(id));
    IdsAreKeys(db.Snapshot(), SubCategoryRoot(id));
    DeleteNothing(db.projects);
    DeleteNothing(db.categories);

    db.taskHistory := DeleteHistory(db.taskHistory, taskIds);
    db.tasks := db.tasks.Delete(TaskKeys(db.tasks, SubCategoryRoot(id)));
    db.subCategories := db.subCategories.Delete({id});
  }

  /** `deleteTask(id)` (and `permanentlyDelete` of an ACTION item). */
  method DeleteTask(db: Database, id: Id)
    requires db.Valid()
    modifies db
    ensures db.Valid()
    ensures db.projects == Cascade(old(db.Snapshot()), TaskRoot(id)).projects
    ensures db.categories == Cascade(old(db.Snapshot()), TaskRoot(id)).categories
    ensures db.subCategories == Cascade(old(db.Snapshot()), TaskRoot(id)).subCategories
    ensures db.tasks == Cascade(old(db.Snapshot()), TaskRoot(id)).tasks
    ensures db.taskHistory == Cascade(old(db.Snapshot()), TaskRoot(id)).taskHistory
  {
    DeleteNothing(db.projects);
    DeleteNothing(db.categories);
    DeleteNothing(db.subCategories);
    db.taskHistory := WithoutHistoryOf(db.taskHistory, {id});
    db.tasks := db.tasks.Delete({id});
  }
}
