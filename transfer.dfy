/** Backup export and import (`useDataTransfer`). The export is every row
    of the five tables, ids included, tagged with version `'1.0'`. The
    import first checks the backup's shape, then in one transaction either
    replaces every table by the backup's rows, keys kept (overwrite), or
    appends every backup row under a fresh key, rewriting each foreign key
    through the old-to-new key maps filled by the earlier tables (merge). */
module Transfer {
  import opened Common
  import opened Types
  import opened Db

  /** `BackupData` as parsed from the file: any array, and the version, may
      be missing from a hand-edited file; every stored row carries its id. */
  datatype Backup = Backup(
    version: Option<string>,
    exportedAt: Time,
    projects: Option<seq<Row<Project>>>,
    categories: Option<seq<Row<Category>>>,
    subCategories: Option<seq<Row<SubCategory>>>,
    tasks: Option<seq<Row<Task>>>,
    taskHistory: Option<seq<Row<TaskHistory>>>)

  datatype Mode = Overwrite | Merge

  /** How an import ends: written, refused before the transaction, or
      thrown inside the transaction (which rolls every write back). */
  datatype Outcome = Imported | InvalidFormat | Aborted

  // ---------------------------------------------------------------------
  // Export

  /** `exportData()`: the snapshot written to the file. */
  function Exported(s: Store, now: Time): Backup {
    Backup(Some("1.0"), now, Some(RowsOf(s.projects)), Some(RowsOf(s.categories)),
           Some(RowsOf(s.subCategories)), Some(RowsOf(s.tasks)), Some(RowsOf(s.taskHistory)))
  }

  /** The export holds every row of every table, with its id, and nothing else. */
  lemma ExportHoldsEverything(s: Store, now: Time)
    requires s.Valid()
    ensures var b := Exported(s, now);
      && b.version == Some("1.0")
      && (forall r :: r in b.projects.value <==> r.id in s.projects.rows && s.projects.rows[r.id] == r.value)
      && (forall r :: r in b.categories.value <==> r.id in s.categories.rows && s.categories.rows[r.id] == r.value)
      && (forall r :: r in b.subCategories.value <==> r.id in s.subCategories.rows && s.subCategories.rows[r.id] == r.value)
      && (forall r :: r in b.tasks.value <==> r.id in s.tasks.rows && s.tasks.rows[r.id] == r.value)
      && (forall r :: r in b.taskHistory.value <==> r.id in s.taskHistory.rows && s.taskHistory.rows[r.id] == r.value)
  {
    RowsOfExact(s.projects);
    RowsOfExact(s.categories);
    RowsOfExact(s.subCategories);
    RowsOfExact(s.tasks);
    RowsOfExact(s.taskHistory);
  }

  // ---------------------------------------------------------------------
  // Validation

  /** `!backup.version || !backup.projects` is false: a non-empty version
      and a projects array (which may be empty). */
  predicate WellFormed(b: Backup) {
    b.version.Some? && b.version.value != "" && b.projects.Some?
  }

  /** Every array is there; a missing one makes the transaction throw. */
  predicate Complete(b: Backup) {
    b.projects.Some? && b.categories.Some? && b.subCategories.Some? && b.tasks.Some? && b.taskHistory.Some?
  }

  // ---------------------------------------------------------------------
  // Overwrite

  /** `table.bulkAdd(rows)` of rows that carry their keys: every row under
      its own key, or a failure when a key is already taken. */
  function PutAll<T>(t: Table<T>, rows: seq<Row<T>>): Option<Table<T>>
    decreases |rows|
  {
    if rows == [] then Some(t)
    else
      match PutAll(t, rows[..|rows| - 1])
      case None => None
      case Some(u) =>
        var r := rows[|rows| - 1];
        if r.id in u.rows then None else Some(u.Put(r.id, r.value))
  }

  ghost predicate DistinctIds<T>(rows: seq<Row<T>>) {
    forall i, j :: 0 <= i < j < |rows| ==> rows[i].id != rows[j].id
  }

  /** Into an empty table, the bulk add succeeds exactly when the keys are
      distinct, and then the table holds exactly the given rows. */
  lemma {:induction false} PutAllExact<T>(t: Table<T>, rows: seq<Row<T>>)
    requires t.Valid() && t.rows == map[]
    ensures PutAll(t, rows).Some? <==> DistinctIds(rows)
    ensures PutAll(t, rows).Some? ==>
      && PutAll(t, rows).value.Valid()
      && (forall r :: r in rows ==> r.id in PutAll(t, rows).value.rows && PutAll(t, rows).value.rows[r.id] == r.value)
      && (forall k :: k in PutAll(t, rows).value.rows ==> Row(k, PutAll(t, rows).value.rows[k]) in rows)
    decreases |rows|
  {
    if rows != [] {
      var init := rows[..|rows| - 1];
      var last := rows[|rows| - 1];
      PutAllExact(t, init);
      assert rows == init + [last];
      if PutAll(t, init).Some? {
        var u := PutAll(t, init).value;
        if last.id in u.rows {
          var i :| 0 <= i < |init| && init[i] == Row(last.id, u.rows[last.id]);
          assert rows[i].id == rows[|rows| - 1].id;
        } else {
          forall i, j | 0 <= i < j < |rows| ensures rows[i].id != rows[j].id {
            if j == |rows| - 1 {
              assert init[i] in init;
            } else {
              assert init[i].id != init[j].id;
            }
          }
        }
      } else {
        assert !DistinctIds(init);
        var i, j :| 0 <= i < j < |init| && init[i].id == init[j].id;
        assert rows[i].id == rows[j].id;
      }
    }
  }

  /** A failed prefix fails the whole bulk add. */
  lemma {:induction false} PutAllStaysFailed<T>(t: Table<T>, rows: seq<Row<T>>, n: nat)
    requires n <= |rows|
    requires PutAll(t, rows[..n]) == None
    ensures PutAll(t, rows) == None
    decreases |rows| - n
  {
    if n < |rows| {
      assert rows[..n + 1][..n] == rows[..n];
      PutAllStaysFailed(t, rows, n + 1);
    } else {
      assert rows[..n] == rows;
    }
  }

  /** The bulk add as a loop that stops at the first taken key. */
  method BulkPut<T>(t: Table<T>, rows: seq<Row<T>>) returns (r: Option<Table<T>>)
    ensures r == PutAll(t, rows)
  {
    var cur := t;
    var i := 0;
    while i < |rows|
      invariant 0 <= i <= |rows|
      invariant PutAll(t, rows[..i]) == Some(cur)
    {
      assert rows[..i + 1][..i] == rows[..i];
      if rows[i].id in cur.rows {
        PutAllStaysFailed(t, rows, i + 1);
        return None;
      }
      cur := cur.Put(rows[i].id, rows[i].value);
      i := i + 1;
    }
    assert rows[..i] == rows;
    r := Some(cur);
  }

  /** The store after the overwrite branch, or `None` when a bulk add throws. */
  function Overwritten(s: Store, b: Backup): Option<Store>
    requires Complete(b)
  {
    var p := PutAll(s.projects.Clear(), b.projects.value);
    var c := PutAll(s.categories.Clear(), b.categories.value);
    var u := PutAll(s.subCategories.Clear(), b.subCategories.value);
    var t := PutAll(s.tasks.Clear(), b.tasks.value);
    var h := PutAll(s.taskHistory.Clear(), b.taskHistory.value);
    if p.Some? && c.Some? && u.Some? && t.Some? && h.Some?
    then Some(Store(p.value, c.value, u.value, t.value, h.value))
    else None
  }

  /** Overwrite succeeds exactly when no array repeats an id, and then each
      table holds exactly the rows of its backup array, under their own ids. */
  lemma OverwriteExact(s: Store, b: Backup)
    requires s.Valid() && Complete(b)
    ensures Overwritten(s, b).Some? <==>
      && DistinctIds(b.projects.value) && DistinctIds(b.categories.value) && DistinctIds(b.subCategories.value)
      && DistinctIds(b.tasks.value) && DistinctIds(b.taskHistory.value)
    ensures Overwritten(s, b).Some? ==>
      var o := Overwritten(s, b).value;
      && o.Valid()
      && (forall r :: r in b.projects.value <==> r.id in o.projects.rows && o.projects.rows[r.id] == r.value)
      && (forall r :: r in b.categories.value <==> r.id in o.categories.rows && o.categories.rows[r.id] == r.value)
      && (forall r :: r in b.subCategories.value <==> r.id in o.subCategories.rows && o.subCategories.rows[r.id] == r.value)
      && (forall r :: r in b.tasks.value <==> r.id in o.tasks.rows && o.tasks.rows[r.id] == r.value)
      && (forall r :: r in b.taskHistory.value <==> r.id in o.taskHistory.rows && o.taskHistory.rows[r.id] == r.value)
  {
    PutAllExact(s.projects.Clear(), b.projects.value);
    PutAllExact(s.categories.Clear(), b.categories.value);
    PutAllExact(s.subCategories.Clear(), b.subCategories.value);
    PutAllExact(s.tasks.Clear(), b.tasks.value);
    PutAllExact(s.taskHistory.Clear(), b.taskHistory.value);
  }

  /** The rows of a table, listed in key order, never repeat a key. */
  lemma RowsOfDistinct<T>(t: Table<T>)
    requires t.Valid()
    ensures DistinctIds(RowsOf(t))
  {
    RowsOfExact(t);
  }

  /** One table listed in key order and bulk-added into a cleared table
      comes back row for row. */
  lemma TableRoundTrip<T>(t: Table<T>, target: Table<T>)
    requires t.Valid() && target.Valid()
    ensures PutAll(target.Clear(), RowsOf(t)).Some?
    ensures PutAll(target.Clear(), RowsOf(t)).value.rows == t.rows
  {
    RowsOfDistinct(t);
    RowsOfExact(t);
    PutAllExact(target.Clear(), RowsOf(t));
    var o := PutAll(target.Clear(), RowsOf(t)).value;
    forall k | k in t.rows ensures k in o.rows && o.rows[k] == t.rows[k] {
      assert Row(k, t.rows[k]) in RowsOf(t);
    }
  }

  /** Export then overwrite-import, into any store, gives back every table
      row for row. */
  lemma ExportOverwriteRoundTrip(s: Store, target: Store, now: Time)
    requires s.Valid() && target.Valid()
    ensures Overwritten(target, Exported(s, now)).Some?
    ensures var o := Overwritten(target, Exported(s, now)).value;
      && o.projects.rows == s.projects.rows && o.categories.rows == s.categories.rows
      && o.subCategories.rows == s.subCategories.rows && o.tasks.rows == s.tasks.rows
      && o.taskHistory.rows == s.taskHistory.rows
  {
    TableRoundTrip(s.projects, target.projects);
    TableRoundTrip(s.categories, target.categories);
    TableRoundTrip(s.subCategories, target.subCategories);
    TableRoundTrip(s.tasks, target.tasks);
    TableRoundTrip(s.taskHistory, target.taskHistory);
  }

  // ---------------------------------------------------------------------
  // Merge

  /** The records of `rows` with their ids stripped (`const { id, ...rest } = r`). */
  function Values<T>(rows: seq<Row<T>>): (vs: seq<T>)
    ensures |vs| == |rows| && forall i :: 0 <= i < |rows| ==> vs[i] == rows[i].value
  {
    seq(|rows|, i requires 0 <= i < |rows| => rows[i].value)
  }

  /** The old-to-new key map a merge loop fills when the rows are added one
      by one from key `start` on: `map.set(oldId, newId)`, a later row with
      the same old id overriding an earlier one. */
  function IdMap<T>(rows: seq<Row<T>>, start: nat): map<Id, Id>
    decreases |rows|
  {
    if rows == [] then map[]
    else IdMap(rows[..|rows| - 1], start)[rows[|rows| - 1].id := start + |rows| - 1]
  }

  /** The rows of a backup array by id, a later row with the same id
      overriding an earlier one. */
  function ById<T>(rows: seq<Row<T>>): map<Id, T>
    decreases |rows|
  {
    if rows == [] then map[]
    else ById(rows[..|rows| - 1])[rows[|rows| - 1].id := rows[|rows| - 1].value]
  }

  /** The key map sends each old id to the new key of the row `ById` keeps for it. */
  lemma {:induction false} IdMapExact<T>(rows: seq<Row<T>>, start: nat)
    ensures IdMap(rows, start).Keys == ById(rows).Keys
    ensures forall k :: k in IdMap(rows, start) ==>
      && start <= IdMap(rows, start)[k] < start + |rows|
      && rows[IdMap(rows, start)[k] - start].id == k
      && rows[IdMap(rows, start)[k] - start].value == ById(rows)[k]
    decreases |rows|
  {
    if rows != [] {
      var init := rows[..|rows| - 1];
      IdMapExact(init, start);
      forall k | k in IdMap(rows, start)
        ensures && start <= IdMap(rows, start)[k] < start + |rows|
                && rows[IdMap(rows, start)[k] - start].id == k
                && rows[IdMap(rows, start)[k] - start].value == ById(rows)[k]
      {
        if k != rows[|rows| - 1].id {
          assert init[IdMap(init, start)[k] - start] == rows[IdMap(init, start)[k] - start];
        }
      }
    }
  }

  /** The foreign-key rewrites: `map.get(old) ?? old`. */
  function RemapCategory(c: Category, projectIds: map<Id, Id>): Category {
    c.(projectId := Lookup(projectIds, c.projectId))
  }

  function RemapSubCategory(u: SubCategory, projectIds: map<Id, Id>, categoryIds: map<Id, Id>): SubCategory {
    u.(projectId := Lookup(projectIds, u.projectId), categoryId := Lookup(categoryIds, u.categoryId))
  }

  function RemapTask(t: Task, projectIds: map<Id, Id>, categoryIds: map<Id, Id>, subCategoryIds: map<Id, Id>): Task {
    t.(projectId := Lookup(projectIds, t.projectId), categoryId := Lookup(categoryIds, t.categoryId),
       subCategoryId := Lookup(subCategoryIds, t.subCategoryId))
  }

  function RemapHistory(h: TaskHistory, taskIds: map<Id, Id>): TaskHistory {
    h.(taskId := Lookup(taskIds, h.taskId))
  }

  function RemappedCategories(rows: seq<Row<Category>>, projectIds: map<Id, Id>): (vs: seq<Category>)
    ensures |vs| == |rows| && forall i :: 0 <= i < |rows| ==> vs[i] == RemapCategory(rows[i].value, projectIds)
  {
    seq(|rows|, i requires 0 <= i < |rows| => RemapCategory(rows[i].value, projectIds))
  }

  function RemappedSubCategories(rows: seq<Row<SubCategory>>, projectIds: map<Id, Id>, categoryIds: map<Id, Id>)
    : (vs: seq<SubCategory>)
    ensures |vs| == |rows|
    ensures forall i :: 0 <= i < |rows| ==> vs[i] == RemapSubCategory(rows[i].value, projectIds, categoryIds)
  {
    seq(|rows|, i requires 0 <= i < |rows| => RemapSubCategory(rows[i].value, projectIds, categoryIds))
  }

  function RemappedTasks(rows: seq<Row<Task>>, projectIds: map<Id, Id>, categoryIds: map<Id, Id>,
                         subCategoryIds: map<Id, Id>): (vs: seq<Task>)
    ensures |vs| == |rows|
    ensures forall i :: 0 <= i < |rows| ==> vs[i] == RemapTask(rows[i].value, projectIds, categoryIds, subCategoryIds)
  {
    seq(|rows|, i requires 0 <= i < |rows| => RemapTask(rows[i].value, projectIds, categoryIds, subCategoryIds))
  }

  function RemappedHistory(rows: seq<Row<TaskHistory>>, taskIds: map<Id, Id>): (vs: seq<TaskHistory>)
    ensures |vs| == |rows| && forall i :: 0 <= i < |rows| ==> vs[i] == RemapHistory(rows[i].value, taskIds)
  {
    seq(|rows|, i requires 0 <= i < |rows| => RemapHistory(rows[i].value, taskIds))
  }

  /** The store after the merge branch. */
  function Merged(s: Store, b: Backup): Store
    requires Complete(b)
  {
    var projectIds := IdMap(b.projects.value, s.projects.next);
    var categoryIds := IdMap(b.categories.value, s.categories.next);
    var subCategoryIds := IdMap(b.subCategories.value, s.subCategories.next);
    var taskIds := IdMap(b.tasks.value, s.tasks.next);
    Store(
      AddAll(s.projects, Values(b.projects.value)),
      AddAll(s.categories, RemappedCategories(b.categories.value, projectIds)),
      AddAll(s.subCategories, RemappedSubCategories(b.subCategories.value, projectIds, categoryIds)),
      AddAll(s.tasks, RemappedTasks(b.tasks.value, projectIds, categoryIds, subCategoryIds)),
      AddAll(s.taskHistory, RemappedHistory(b.taskHistory.value, taskIds)))
  }

  // One more row through each loop.

  lemma IdMapSnoc<T>(rows: seq<Row<T>>, i: nat, start: nat)
    requires i < |rows|
    ensures IdMap(rows[..i + 1], start) == IdMap(rows[..i], start)[rows[i].id := start + i]
  {
    assert rows[..i + 1][..i] == rows[..i];
  }

  lemma ValuesSnoc<T>(t: Table<T>, rows: seq<Row<T>>, i: nat)
    requires i < |rows|
    ensures AddAll(t, Values(rows[..i + 1])) == AddAll(t, Values(rows[..i])).Add(rows[i].value)
  {
    assert Values(rows[..i + 1]) == Values(rows[..i]) + [rows[i].value];
    AddAllSnoc(t, Values(rows[..i]), rows[i].value);
  }

  lemma RemappedCategoriesSnoc(t: Table<Category>, rows: seq<Row<Category>>, i: nat, projectIds: map<Id, Id>)
    requires i < |rows|
    ensures AddAll(t, RemappedCategories(rows[..i + 1], projectIds))
      == AddAll(t, RemappedCategories(rows[..i], projectIds)).Add(RemapCategory(rows[i].value, projectIds))
  {
    var c := RemapCategory(rows[i].value, projectIds);
    assert RemappedCategories(rows[..i + 1], projectIds) == RemappedCategories(rows[..i], projectIds) + [c];
    AddAllSnoc(t, RemappedCategories(rows[..i], projectIds), c);
  }

  lemma RemappedSubCategoriesSnoc(t: Table<SubCategory>, rows: seq<Row<SubCategory>>, i: nat,
                                  projectIds: map<Id, Id>, categoryIds: map<Id, Id>)
    requires i < |rows|
    ensures AddAll(t, RemappedSubCategories(rows[..i + 1], projectIds, categoryIds))
      == AddAll(t, RemappedSubCategories(rows[..i], projectIds, categoryIds))
           .Add(RemapSubCategory(rows[i].value, projectIds, categoryIds))
  {
    var u := RemapSubCategory(rows[i].value, projectIds, categoryIds);
    assert RemappedSubCategories(rows[..i + 1], projectIds, categoryIds)
      == RemappedSubCategories(rows[..i], projectIds, categoryIds) + [u];
    AddAllSnoc(t, RemappedSubCategories(rows[..i], projectIds, categoryIds), u);
  }

  lemma RemappedTasksSnoc(t: Table<Task>, rows: seq<Row<Task>>, i: nat, projectIds: map<Id, Id>,
                          categoryIds: map<Id, Id>, subCategoryIds: map<Id, Id>)
    requires i < |rows|
    ensures AddAll(t, RemappedTasks(rows[..i + 1], projectIds, categoryIds, subCategoryIds))
      == AddAll(t, RemappedTasks(rows[..i], projectIds, categoryIds, subCategoryIds))
           .Add(RemapTask(rows[i].value, projectIds, categoryIds, subCategoryIds))
  {
    var v := RemapTask(rows[i].value, projectIds, categoryIds, subCategoryIds);
    assert RemappedTasks(rows[..i + 1], projectIds, categoryIds, subCategoryIds)
      == RemappedTasks(rows[..i], projectIds, categoryIds, subCategoryIds) + [v];
    AddAllSnoc(t, RemappedTasks(rows[..i], projectIds, categoryIds, subCategoryIds), v);
  }

  lemma RemappedHistorySnoc(t: Table<TaskHistory>, rows: seq<Row<TaskHistory>>, i: nat, taskIds: map<Id, Id>)
    requires i < |rows|
    ensures AddAll(t, RemappedHistory(rows[..i + 1], taskIds))
      == AddAll(t, RemappedHistory(rows[..i], taskIds)).Add(RemapHistory(rows[i].value, taskIds))
  {
    var h := RemapHistory(rows[i].value, taskIds);
    assert RemappedHistory(rows[..i + 1], taskIds) == RemappedHistory(rows[..i], taskIds) + [h];
    AddAllSnoc(t, RemappedHistory(rows[..i], taskIds), h);
  }

  // The five loops of the merge branch.

  method MergeProjects(t: Table<Project>, rows: seq<Row<Project>>) returns (r: Table<Project>, ids: map<Id, Id>)
    ensures r == AddAll(t, Values(rows)) && ids == IdMap(rows, t.next)
  {
    r, ids := t, map[];
    var i := 0;
    while i < |rows|
      invariant 0 <= i <= |rows|
      invariant r == AddAll(t, Values(rows[..i])) && ids == IdMap(rows[..i], t.next) && r.next == t.next + i
    {
      ValuesSnoc(t, rows, i);
      IdMapSnoc(rows, i, t.next);
      var newId := r.next;
      r := r.Add(rows[i].value);
      ids := ids[rows[i].id := newId];
      i := i + 1;
    }
    assert rows[..i] == rows;
  }

  method MergeCategories(t: Table<Category>, rows: seq<Row<Category>>, projectIds: map<Id, Id>)
    returns (r: Table<Category>, ids: map<Id, Id>)
    ensures r == AddAll(t, RemappedCategories(rows, projectIds)) && ids == IdMap(rows, t.next)
  {
    r, ids := t, map[];
    var i := 0;
    while i < |rows|
      invariant 0 <= i <= |rows|
      invariant r == AddAll(t, RemappedCategories(rows[..i], projectIds)) && ids == IdMap(rows[..i], t.next)
      invariant r.next == t.next + i
    {
      var c := RemapCategory(rows[i].value, projectIds);
      RemappedCategoriesSnoc(t, rows, i, projectIds);
      IdMapSnoc(rows, i, t.next);
      var newId := r.next;
      r := r.Add(c);
      ids := ids[rows[i].id := newId];
      i := i + 1;
    }
    assert rows[..i] == rows;
  }

  method MergeSubCategories(t: Table<SubCategory>, rows: seq<Row<SubCategory>>, projectIds: map<Id, Id>,
                            categoryIds: map<Id, Id>)
    returns (r: Table<SubCategory>, ids: map<Id, Id>)
    ensures r == AddAll(t, RemappedSubCategories(rows, projectIds, categoryIds)) && ids == IdMap(rows, t.next)
  {
    r, ids := t, map[];
    var i := 0;
    while i < |rows|
      invariant 0 <= i <= |rows|
      invariant r == AddAll(t, RemappedSubCategories(rows[..i], projectIds, categoryIds))
      invariant ids == IdMap(rows[..i], t.next) && r.next == t.next + i
    {
      var u := RemapSubCategory(rows[i].value, projectIds, categoryIds);
      RemappedSubCategoriesSnoc(t, rows, i, projectIds, categoryIds);
      IdMapSnoc(rows, i, t.next);
      var newId := r.next;
      r := r.Add(u);
      ids := ids[rows[i].id := newId];
      i := i + 1;
    }
    assert rows[..i] == rows;
  }

  method MergeTasks(t: Table<Task>, rows: seq<Row<Task>>, projectIds: map<Id, Id>, categoryIds: map<Id, Id>,
                    subCategoryIds: map<Id, Id>)
    returns (r: Table<Task>, ids: map<Id, Id>)
    ensures r == AddAll(t, RemappedTasks(rows, projectIds, categoryIds, subCategoryIds))
    ensures ids == IdMap(rows, t.next)
  {
    r, ids := t, map[];
    var i := 0;
    while i < |rows|
      invariant 0 <= i <= |rows|
      invariant r == AddAll(t, RemappedTasks(rows[..i], projectIds, categoryIds, subCategoryIds))
      invariant ids == IdMap(rows[..i], t.next) && r.next == t.next + i
    {
      var v := RemapTask(rows[i].value, projectIds, categoryIds, subCategoryIds);
      RemappedTasksSnoc(t, rows, i, projectIds, categoryIds, subCategoryIds);
      IdMapSnoc(rows, i, t.next);
      var newId := r.next;
      r := r.Add(v);
      ids := ids[rows[i].id := newId];
      i := i + 1;
    }
    assert rows[..i] == rows;
  }

  method MergeHistory(t: Table<TaskHistory>, rows: seq<Row<TaskHistory>>, taskIds: map<Id, Id>)
    returns (r: Table<TaskHistory>)
    ensures r == AddAll(t, RemappedHistory(rows, taskIds))
  {
    r := t;
    var i := 0;
    while i < |rows|
      invariant 0 <= i <= |rows|
      invariant r == AddAll(t, RemappedHistory(rows[..i], taskIds))
    {
      var h := RemapHistory(rows[i].value, taskIds);
      RemappedHistorySnoc(t, rows, i, taskIds);
      r := r.Add(h);
      i := i + 1;
    }
    assert rows[..i] == rows;
  }

  // ---------------------------------------------------------------------
  // The import

  /** The overwrite branch of the transaction, on a working copy of the
      store: clear the five tables, then bulk-add each backup array. A
      missing array or a taken key throws (`None`). */
  method OverwriteTables(s: Store, b: Backup) returns (r: Option<Store>)
    requires b.projects.Some?
    ensures r == (if Complete(b) then Overwritten(s, b) else None)
  {
    var cleared := Store(s.projects.Clear(), s.categories.Clear(), s.subCategories.Clear(),
                         s.tasks.Clear(), s.taskHistory.Clear());
    var p := BulkPut(cleared.projects, b.projects.value);
    if p.None? || b.categories.None? {
      return None;
    }
    var c := BulkPut(cleared.categories, b.categories.value);
    if c.None? || b.subCategories.None? {
      return None;
    }
    var u := BulkPut(cleared.subCategories, b.subCategories.value);
    if u.None? || b.tasks.None? {
      return None;
    }
    var t := BulkPut(cleared.tasks, b.tasks.value);
    if t.None? || b.taskHistory.None? {
      return None;
    }
    var h := BulkPut(cleared.taskHistory, b.taskHistory.value);
    if h.None? {
      return None;
    }
    r := Some(Store(p.value, c.value, u.value, t.value, h.value));
  }

  /** The merge branch of the transaction, on a working copy of the store:
      the five loops in order, each feeding its key map to the next. A
      missing array throws (`None`). */
  method MergeTables(s: Store, b: Backup) returns (r: Option<Store>)
    requires b.projects.Some?
    ensures r == (if Complete(b) then Some(Merged(s, b)) else None)
  {
    var projects, projectIds := MergeProjects(s.projects, b.projects.value);
    if b.categories.None? {
      return None;
    }
    var categories, categoryIds := MergeCategories(s.categories, b.categories.value, projectIds);
    if b.subCategories.None? {
      return None;
    }
    var subCategories, subCategoryIds :=
      MergeSubCategories(s.subCategories, b.subCategories.value, projectIds, categoryIds);
    if b.tasks.None? {
      return None;
    }
    var tasks, taskIds := MergeTasks(s.tasks, b.tasks.value, projectIds, categoryIds, subCategoryIds);
    if b.taskHistory.None? {
      return None;
    }
    var history := MergeHistory(s.taskHistory, b.taskHistory.value, taskIds);
    r := Some(Store(projects, categories, subCategories, tasks, history));
  }

  /** `importData(file, mode)` after the file is read and parsed. A backup
      without a version or a projects array is refused before anything is
      written. Inside the transaction a missing array, or a key the
      overwrite's bulk add finds taken, throws, and no table changes. */
  method ImportData(db: Database, b: Backup, mode: Mode) returns (outcome: Outcome)
    requires db.Valid()
    modifies db
    ensures db.Valid()
    ensures outcome == InvalidFormat <==> !WellFormed(b)
    ensures outcome == Imported <==>
      WellFormed(b) && Complete(b) && (mode == Overwrite ==> Overwritten(old(db.Snapshot()), b).Some?)
    ensures outcome != Imported ==> db.Snapshot() == old(db.Snapshot())
    ensures outcome == Imported && mode == Overwrite ==> db.Snapshot() == Overwritten(old(db.Snapshot()), b).value
    ensures outcome == Imported && mode == Merge ==> db.Snapshot() == Merged(old(db.Snapshot()), b)
  {
    if b.version.None? || b.version.value == "" || b.projects.None? {
      return InvalidFormat;
    }
    var s := db.Snapshot();
    var r;
    if mode == Overwrite {
      r := OverwriteTables(s, b);
      if r.Some? {
        OverwriteExact(s, b);
      }
    } else {
      r := MergeTables(s, b);
      if r.Some? {
        MergedValid(s, b);
      }
    }
    if r.None? {
      return Aborted;
    }
    db.Commit(r.value);
    outcome := Imported;
  }

  // ---------------------------------------------------------------------
  // What a merge keeps and what it links

  /** `u` is `t` with `vs` appended under fresh keys: the old rows kept, the
      `i`-th new value under key `next + i`, nothing else. */
  ghost predicate Extends<T>(t: Table<T>, u: Table<T>, vs: seq<T>) {
    && u.Valid()
    && u.next == t.next + |vs|
    && (forall k :: k in u.rows <==> k in t.rows || t.next <= k < t.next + |vs|)
    && (forall k :: k in t.rows ==> u.rows[k] == t.rows[k])
    && (forall i :: 0 <= i < |vs| ==> u.rows[t.next + i] == vs[i])
  }

  lemma AddAllExtends<T>(t: Table<T>, vs: seq<T>)
    requires t.Valid()
    ensures Extends(t, AddAll(t, vs), vs)
  {
    AddAllContents(t, vs);
  }

  /** A merge keeps every stored row under its key and appends the `i`-th row
      of each backup array, its references rewritten through the key maps,
      under key `next + i`. */
  lemma MergeKeepsExisting(s: Store, b: Backup)
    requires s.Valid() && Complete(b)
    ensures var m := Merged(s, b);
      var projectIds := IdMap(b.projects.value, s.projects.next);
      var categoryIds := IdMap(b.categories.value, s.categories.next);
      var subCategoryIds := IdMap(b.subCategories.value, s.subCategories.next);
      && Extends(s.projects, m.projects, Values(b.projects.value))
      && Extends(s.categories, m.categories, RemappedCategories(b.categories.value, projectIds))
      && Extends(s.subCategories, m.subCategories, RemappedSubCategories(b.subCategories.value, projectIds, categoryIds))
      && Extends(s.tasks, m.tasks, RemappedTasks(b.tasks.value, projectIds, categoryIds, subCategoryIds))
      && Extends(s.taskHistory, m.taskHistory, RemappedHistory(b.taskHistory.value, IdMap(b.tasks.value, s.tasks.next)))
  {
    var projectIds := IdMap(b.projects.value, s.projects.next);
    var categoryIds := IdMap(b.categories.value, s.categories.next);
    var subCategoryIds := IdMap(b.subCategories.value, s.subCategories.next);
    AddAllExtends(s.projects, Values(b.projects.value));
    AddAllExtends(s.categories, RemappedCategories(b.categories.value, projectIds));
    AddAllExtends(s.subCategories, RemappedSubCategories(b.subCategories.value, projectIds, categoryIds));
    AddAllExtends(s.tasks, RemappedTasks(b.tasks.value, projectIds, categoryIds, subCategoryIds));
    AddAllExtends(s.taskHistory, RemappedHistory(b.taskHistory.value, IdMap(b.tasks.value, s.tasks.next)));
  }

  lemma MergedValid(s: Store, b: Backup)
    requires s.Valid() && Complete(b)
    ensures Merged(s, b).Valid()
  {
    var projectIds := IdMap(b.projects.value, s.projects.next);
    var categoryIds := IdMap(b.categories.value, s.categories.next);
    var subCategoryIds := IdMap(b.subCategories.value, s.subCategories.next);
    AddAllValid(s.projects, Values(b.projects.value));
    AddAllValid(s.categories, RemappedCategories(b.categories.value, projectIds));
    AddAllValid(s.subCategories, RemappedSubCategories(b.subCategories.value, projectIds, categoryIds));
    AddAllValid(s.tasks, RemappedTasks(b.tasks.value, projectIds, categoryIds, subCategoryIds));
    AddAllValid(s.taskHistory, RemappedHistory(b.taskHistory.value, IdMap(b.tasks.value, s.tasks.next)));
  }

  /** Every reference inside a backup array names a row of the parent array,
      and the copied `projectId`/`categoryId` agree with that parent. */
  ghost predicate CategoryRowsLinked(cs: seq<Row<Category>>, ps: seq<Row<Project>>) {
    forall i :: 0 <= i < |cs| ==> cs[i].value.projectId in ById(ps)
  }

  ghost predicate SubCategoryRowsLinked(us: seq<Row<SubCategory>>, cs: seq<Row<Category>>) {
    forall i :: 0 <= i < |us| ==>
      && us[i].value.categoryId in ById(cs)
      && us[i].value.projectId == ById(cs)[us[i].value.categoryId].projectId
  }

  ghost predicate TaskRowsLinked(ts: seq<Row<Task>>, us: seq<Row<SubCategory>>) {
    forall i :: 0 <= i < |ts| ==>
      && ts[i].value.subCategoryId in ById(us)
      && ts[i].value.categoryId == ById(us)[ts[i].value.subCategoryId].categoryId
      && ts[i].value.projectId == ById(us)[ts[i].value.subCategoryId].projectId
  }

  ghost predicate HistoryRowsLinked(hs: seq<Row<TaskHistory>>, ts: seq<Row<Task>>) {
    forall i :: 0 <= i < |hs| ==> hs[i].value.taskId in ById(ts)
  }

  /** The backup is self-contained: what an export of a consistent store
      always satisfies. */
  ghost predicate BackupLinked(b: Backup)
    requires Complete(b)
  {
    && CategoryRowsLinked(b.categories.value, b.projects.value)
    && SubCategoryRowsLinked(b.subCategories.value, b.categories.value)
    && TaskRowsLinked(b.tasks.value, b.subCategories.value)
    && HistoryRowsLinked(b.taskHistory.value, b.tasks.value)
  }

  /** A reference the backup resolves is rewritten to the new key of the row
      it named. */
  lemma RemapResolves<T>(rows: seq<Row<T>>, start: nat, k: Id)
    requires k in ById(rows)
    ensures var n := Lookup(IdMap(rows, start), k);
      start <= n < start + |rows| && rows[n - start].id == k && rows[n - start].value == ById(rows)[k]
  {
    IdMapExact(rows, start);
  }

  // The four links, one key at a time. The per-key lemmas see the
  // appended tables only through `Extends`.

  lemma CategoryLinkedAt(projects: Table<Project>, categories: Table<Category>, p: Table<Project>,
                         c: Table<Category>, ps: seq<Row<Project>>, cs: seq<Row<Category>>, k: Id)
    requires CategoryRowsLinked(cs, ps)
    requires forall k :: k in categories.rows ==> categories.rows[k].projectId in projects.rows
    requires Extends(projects, p, Values(ps))
    requires Extends(categories, c, RemappedCategories(cs, IdMap(ps, projects.next)))
    requires k in c.rows
    ensures c.rows[k].projectId in p.rows
  {
    if k !in categories.rows {
      var i := k - categories.next;
      assert c.rows[categories.next + i] == RemapCategory(cs[i].value, IdMap(ps, projects.next));
      RemapResolves(ps, projects.next, cs[i].value.projectId);
    }
  }

  lemma SubCategoryLinkedAt(categories: Table<Category>, subCategories: Table<SubCategory>, c: Table<Category>,
                            u: Table<SubCategory>, cs: seq<Row<Category>>, us: seq<Row<SubCategory>>,
                            projectIds: map<Id, Id>, k: Id)
    requires SubCategoryRowsLinked(us, cs)
    requires forall k :: k in subCategories.rows ==>
      && subCategories.rows[k].categoryId in categories.rows
      && subCategories.rows[k].projectId == categories.rows[subCategories.rows[k].categoryId].projectId
    requires Extends(categories, c, RemappedCategories(cs, projectIds))
    requires Extends(subCategories, u, RemappedSubCategories(us, projectIds, IdMap(cs, categories.next)))
    requires k in u.rows
    ensures u.rows[k].categoryId in c.rows && u.rows[k].projectId == c.rows[u.rows[k].categoryId].projectId
  {
    if k !in subCategories.rows {
      var i := k - subCategories.next;
      assert u.rows[subCategories.next + i] == RemapSubCategory(us[i].value, projectIds, IdMap(cs, categories.next));
      NewSubCategoryLinked(categories, c, cs, projectIds, us[i].value);
    }
  }

  /** A SubCategory row the backup links to one of its categories is, once
      remapped, linked to that category's appended row. */
  lemma NewSubCategoryLinked(categories: Table<Category>, c: Table<Category>, cs: seq<Row<Category>>,
                             projectIds: map<Id, Id>, v: SubCategory)
    requires v.categoryId in ById(cs) && v.projectId == ById(cs)[v.categoryId].projectId
    requires Extends(categories, c, RemappedCategories(cs, projectIds))
    ensures var w := RemapSubCategory(v, projectIds, IdMap(cs, categories.next));
      w.categoryId in c.rows && w.projectId == c.rows[w.categoryId].projectId
  {
    RemapResolves(cs, categories.next, v.categoryId);
    var j := Lookup(IdMap(cs, categories.next), v.categoryId) - categories.next;
    assert c.rows[categories.next + j] == RemapCategory(cs[j].value, projectIds);
  }

  lemma TaskLinkedAt(subCategories: Table<SubCategory>, tasks: Table<Task>, u: Table<SubCategory>, t: Table<Task>,
                     us: seq<Row<SubCategory>>, ts: seq<Row<Task>>, projectIds: map<Id, Id>,
                     categoryIds: map<Id, Id>, k: Id)
    requires TaskRowsLinked(ts, us)
    requires forall k :: k in tasks.rows ==>
      && tasks.rows[k].subCategoryId in subCategories.rows
      && tasks.rows[k].categoryId == subCategories.rows[tasks.rows[k].subCategoryId].categoryId
      && tasks.rows[k].projectId == subCategories.rows[tasks.rows[k].subCategoryId].projectId
    requires Extends(subCategories, u, RemappedSubCategories(us, projectIds, categoryIds))
    requires Extends(tasks, t, RemappedTasks(ts, projectIds, categoryIds, IdMap(us, subCategories.next)))
    requires k in t.rows
    ensures && t.rows[k].subCategoryId in u.rows
            && t.rows[k].categoryId == u.rows[t.rows[k].subCategoryId].categoryId
            && t.rows[k].projectId == u.rows[t.rows[k].subCategoryId].projectId
  {
    if k !in tasks.rows {
      var i := k - tasks.next;
      assert t.rows[tasks.next + i] == RemapTask(ts[i].value, projectIds, categoryIds, IdMap(us, subCategories.next));
      NewTaskLinked(subCategories, u, us, projectIds, categoryIds, ts[i].value);
    }
  }

  /** A task row the backup links to one of its SubCategories is, once
      remapped, linked to that SubCategory's appended row. */
  lemma NewTaskLinked(subCategories: Table<SubCategory>, u: Table<SubCategory>, us: seq<Row<SubCategory>>,
                      projectIds: map<Id, Id>, categoryIds: map<Id, Id>, v: Task)
    requires v.subCategoryId in ById(us)
    requires v.categoryId == ById(us)[v.subCategoryId].categoryId
    requires v.projectId == ById(us)[v.subCategoryId].projectId
    requires Extends(subCategories, u, RemappedSubCategories(us, projectIds, categoryIds))
    ensures var w := RemapTask(v, projectIds, categoryIds, IdMap(us, subCategories.next));
      && w.subCategoryId in u.rows
      && w.categoryId == u.rows[w.subCategoryId].categoryId
      && w.projectId == u.rows[w.subCategoryId].projectId
  {
    RemapResolves(us, subCategories.next, v.subCategoryId);
    var j := Lookup(IdMap(us, subCategories.next), v.subCategoryId) - subCategories.next;
    assert u.rows[subCategories.next + j] == RemapSubCategory(us[j].value, projectIds, categoryIds);
  }

  lemma HistoryLinkedAt(tasks: Table<Task>, history: Table<TaskHistory>, t: Table<Task>, h: Table<TaskHistory>,
                        ts: seq<Row<Task>>, hs: seq<Row<TaskHistory>>, projectIds: map<Id, Id>,
                        categoryIds: map<Id, Id>, subCategoryIds: map<Id, Id>, k: Id)
    requires HistoryRowsLinked(hs, ts)
    requires forall k :: k in history.rows ==> history.rows[k].taskId in tasks.rows
    requires Extends(tasks, t, RemappedTasks(ts, projectIds, categoryIds, subCategoryIds))
    requires Extends(history, h, RemappedHistory(hs, IdMap(ts, tasks.next)))
    requires k in h.rows
    ensures h.rows[k].taskId in t.rows
  {
    if k !in history.rows {
      var i := k - history.next;
      assert h.rows[history.next + i] == RemapHistory(hs[i].value, IdMap(ts, tasks.next));
      RemapResolves(ts, tasks.next, hs[i].value.taskId);
    }
  }

  lemma MergedCategoriesLinked(s: Store, b: Backup)
    requires s.Valid() && s.CategoriesLinked() && Complete(b) && BackupLinked(b)
    ensures Merged(s, b).CategoriesLinked()
  {
    var m := Merged(s, b);
    var projectIds := IdMap(b.projects.value, s.projects.next);
    AddAllExtends(s.projects, Values(b.projects.value));
    AddAllExtends(s.categories, RemappedCategories(b.categories.value, projectIds));
    forall k | k in m.categories.rows ensures m.categories.rows[k].projectId in m.projects.rows {
      CategoryLinkedAt(s.projects, s.categories, m.projects, m.categories, b.projects.value, b.categories.value, k);
    }
  }

  lemma MergedSubCategoriesLinked(s: Store, b: Backup)
    requires s.Valid() && s.SubCategoriesLinked() && Complete(b) && BackupLinked(b)
    ensures Merged(s, b).SubCategoriesLinked()
  {
    var m := Merged(s, b);
    var projectIds := IdMap(b.projects.value, s.projects.next);
    var categoryIds := IdMap(b.categories.value, s.categories.next);
    AddAllExtends(s.categories, RemappedCategories(b.categories.value, projectIds));
    AddAllExtends(s.subCategories, RemappedSubCategories(b.subCategories.value, projectIds, categoryIds));
    forall k | k in m.subCategories.rows
      ensures && m.subCategories.rows[k].categoryId in m.categories.rows
              && m.subCategories.rows[k].projectId == m.categories.rows[m.subCategories.rows[k].categoryId].projectId
    {
      SubCategoryLinkedAt(s.categories, s.subCategories, m.categories, m.subCategories, b.categories.value,
                          b.subCategories.value, projectIds, k);
    }
  }

  lemma MergedTasksLinked(s: Store, b: Backup)
    requires s.Valid() && s.TasksLinked() && Complete(b) && BackupLinked(b)
    ensures Merged(s, b).TasksLinked()
  {
    var m := Merged(s, b);
    var projectIds := IdMap(b.projects.value, s.projects.next);
    var categoryIds := IdMap(b.categories.value, s.categories.next);
    var subCategoryIds := IdMap(b.subCategories.value, s.subCategories.next);
    AddAllExtends(s.subCategories, RemappedSubCategories(b.subCategories.value, projectIds, categoryIds));
    AddAllExtends(s.tasks, RemappedTasks(b.tasks.value, projectIds, categoryIds, subCategoryIds));
    forall k | k in m.tasks.rows
      ensures && m.tasks.rows[k].subCategoryId in m.subCategories.rows
              && m.tasks.rows[k].categoryId == m.subCategories.rows[m.tasks.rows[k].subCategoryId].categoryId
              && m.tasks.rows[k].projectId == m.subCategories.rows[m.tasks.rows[k].subCategoryId].projectId
    {
      TaskLinkedAt(s.subCategories, s.tasks, m.subCategories, m.tasks, b.subCategories.value, b.tasks.value,
                   projectIds, categoryIds, k);
    }
  }

  lemma MergedHistoryLinked(s: Store, b: Backup)
    requires s.Valid() && s.HistoryLinked() && Complete(b) && BackupLinked(b)
    ensures Merged(s, b).HistoryLinked()
  {
    var m := Merged(s, b);
    var projectIds := IdMap(b.projects.value, s.projects.next);
    var categoryIds := IdMap(b.categories.value, s.categories.next);
    var subCategoryIds := IdMap(b.subCategories.value, s.subCategories.next);
    var taskIds := IdMap(b.tasks.value, s.tasks.next);
    AddAllExtends(s.tasks, RemappedTasks(b.tasks.value, projectIds, categoryIds, subCategoryIds));
    AddAllExtends(s.taskHistory, RemappedHistory(b.taskHistory.value, taskIds));
    forall k | k in m.taskHistory.rows ensures m.taskHistory.rows[k].taskId in m.tasks.rows {
      HistoryLinkedAt(s.tasks, s.taskHistory, m.tasks, m.taskHistory, b.tasks.value, b.taskHistory.value,
                      projectIds, categoryIds, subCategoryIds, k);
    }
  }

  /** Merging a self-contained backup into a consistent store leaves it consistent. */
  lemma MergeConsistent(s: Store, b: Backup)
    requires s.Valid() && s.Consistent() && Complete(b) && BackupLinked(b)
    ensures Merged(s, b).Valid() && Merged(s, b).Consistent()
  {
    MergedValid(s, b);
    MergedCategoriesLinked(s, b);
    MergedSubCategoriesLinked(s, b);
    MergedTasksLinked(s, b);
    MergedHistoryLinked(s, b);
  }

  /** Every row's id reaches `ById`, and `ById` holds only rows of the array. */
  lemma {:induction false} ByIdRows<T>(rows: seq<Row<T>>)
    ensures forall r :: r in rows ==> r.id in ById(rows)
    ensures forall k :: k in ById(rows) ==> Row(k, ById(rows)[k]) in rows
    decreases |rows|
  {
    if rows != [] {
      var init := rows[..|rows| - 1];
      ByIdRows(init);
      assert rows == init + [rows[|rows| - 1]];
    }
  }

  /** Reading a table's rows back by id gives the table. */
  lemma ByIdOfRows<T>(t: Table<T>)
    requires t.Valid()
    ensures ById(RowsOf(t)) == t.rows
  {
    RowsOfExact(t);
    ByIdRows(RowsOf(t));
    forall k | k in t.rows ensures k in ById(RowsOf(t)) {
      assert Row(k, t.rows[k]) in RowsOf(t);
    }
  }

  /** The export of a consistent store is self-contained. */
  lemma ExportLinked(s: Store, now: Time)
    requires s.Valid() && s.Consistent()
    ensures BackupLinked(Exported(s, now))
  {
    ByIdOfRows(s.projects);
    ByIdOfRows(s.categories);
    ByIdOfRows(s.subCategories);
    ByIdOfRows(s.tasks);
    var cs := RowsOf(s.categories);
    var us := RowsOf(s.subCategories);
    var ts := RowsOf(s.tasks);
    var hs := RowsOf(s.taskHistory);
    RowsOfExact(s.categories);
    RowsOfExact(s.subCategories);
    RowsOfExact(s.tasks);
    RowsOfExact(s.taskHistory);
    forall i | 0 <= i < |cs| ensures cs[i].value.projectId in s.projects.rows {
      assert cs[i] in cs;
    }
    forall i | 0 <= i < |us|
      ensures && us[i].value.categoryId in s.categories.rows
              && us[i].value.projectId == s.categories.rows[us[i].value.categoryId].projectId
    {
      assert us[i] in us;
    }
    forall i | 0 <= i < |ts|
      ensures && ts[i].value.subCategoryId in s.subCategories.rows
              && ts[i].value.categoryId == s.subCategories.rows[ts[i].value.subCategoryId].categoryId
              && ts[i].value.projectId == s.subCategories.rows[ts[i].value.subCategoryId].projectId
    {
      assert ts[i] in ts;
    }
    forall i | 0 <= i < |hs| ensures hs[i].value.taskId in s.tasks.rows {
      assert hs[i] in hs;
    }
  }

  /** Exporting one consistent store and merging the file into another
      consistent store leaves that store consistent. */
  lemma ExportMergeConsistent(s: Store, target: Store, now: Time)
    requires s.Valid() && s.Consistent() && target.Valid() && target.Consistent()
    ensures Merged(target, Exported(s, now)).Consistent()
  {
    ExportLinked(s, now);
    MergeConsistent(target, Exported(s, now));
  }
}
