/** The task hooks: `createTask`, `updateTask` with its field-change history,
    and the `useTasks` / `useTaskHistory` lookups. `JSON.stringify` is a
    parameter `ser` from JSON values to strings; the JSON value of each task
    field is given concretely by `ValueJson`. */
module Tasks {
  import opened Common
  import opened Types
  import opened Db

  /** A JSON value, as `JSON.stringify` sees it. */
  datatype Json =
    | JNull
    | JBool(b: bool)
    | JNum(n: int)
    | JStr(s: string)
    | JArr(items: seq<Json>)
    | JObj(members: seq<(string, Json)>)

  /** A serialiser that never maps two different values to the same text. */
  ghost predicate Injective(ser: Json -> string) {
    forall a, b :: ser(a) == ser(b) ==> a == b
  }

  function StatusName(s: TaskStatus): string {
    match s
    case Todo => "TODO"
    case InProgress => "IN_PROGRESS"
    case Done => "DONE"
  }

  function PriorityName(p: TaskPriority): string {
    match p
    case Low => "LOW"
    case Medium => "MEDIUM"
    case High => "HIGH"
    case Critical => "CRITICAL"
  }

  function ItemJson(c: ChecklistItem): Json {
    JObj([("id", JStr(c.id)), ("text", JStr(c.text)), ("done", JBool(c.done))])
  }

  function ChecklistJson(cs: seq<ChecklistItem>): Json {
    JArr(seq(|cs|, i requires 0 <= i < |cs| => ItemJson(cs[i])))
  }

  /** A nullable timestamp: `null`, or the instant (the stored ISO string
      stands for exactly one instant, so the instant is used in its place). */
  function TimeJson(t: Option<Time>): Json {
    match t
    case None => JNull
    case Some(v) => JNum(v)
  }

  /** One entry of an `updateTask` patch: a task key other than `id` and
      `createdAt`, with its new value. */
  datatype Field =
    | SubCategoryId(Id)
    | CategoryId(Id)
    | ProjectId(Id)
    | Title(string)
    | Description(string)
    | Status(TaskStatus)
    | Priority(TaskPriority)
    | Assignee(string)
    | DueDate(string)
    | Progress(int)
    | Checklist(items: seq<ChecklistItem>)
    | ArchivedAt(Option<Time>)
    | UpdatedAt(Time)

  /** The task keys a patch can write. */
  datatype FieldName =
    | SubCategoryIdKey | CategoryIdKey | ProjectIdKey | TitleKey | DescriptionKey
    | StatusKey | PriorityKey | AssigneeKey | DueDateKey | ProgressKey
    | ChecklistKey | ArchivedAtKey | UpdatedAtKey

  /** The key's property name, as stored in a history row's `field`. */
  function Name(k: FieldName): string {
    match k
    case SubCategoryIdKey => "subCategoryId"
    case CategoryIdKey => "categoryId"
    case ProjectIdKey => "projectId"
    case TitleKey => "title"
    case DescriptionKey => "description"
    case StatusKey => "status"
    case PriorityKey => "priority"
    case AssigneeKey => "assignee"
    case DueDateKey => "dueDate"
    case ProgressKey => "progress"
    case ChecklistKey => "checklist"
    case ArchivedAtKey => "archivedAt"
    case UpdatedAtKey => "updatedAt"
  }

  /** The key an entry writes. */
  function Key(f: Field): FieldName {
    match f
    case SubCategoryId(_) => SubCategoryIdKey
    case CategoryId(_) => CategoryIdKey
    case ProjectId(_) => ProjectIdKey
    case Title(_) => TitleKey
    case Description(_) => DescriptionKey
    case Status(_) => StatusKey
    case Priority(_) => PriorityKey
    case Assignee(_) => AssigneeKey
    case DueDate(_) => DueDateKey
    case Progress(_) => ProgressKey
    case Checklist(_) => ChecklistKey
    case ArchivedAt(_) => ArchivedAtKey
    case UpdatedAt(_) => UpdatedAtKey
  }

  /** The JSON value the entry carries. */
  function ValueJson(f: Field): Json {
    match f
    case SubCategoryId(v) => JNum(v)
    case CategoryId(v) => JNum(v)
    case ProjectId(v) => JNum(v)
    case Title(v) => JStr(v)
    case Description(v) => JStr(v)
    case Status(v) => JStr(StatusName(v))
    case Priority(v) => JStr(PriorityName(v))
    case Assignee(v) => JStr(v)
    case DueDate(v) => JStr(v)
    case Progress(v) => JNum(v)
    case Checklist(v) => ChecklistJson(v)
    case ArchivedAt(v) => TimeJson(v)
    case UpdatedAt(v) => JNum(v)
  }

  /** `existing[key]`: the task's current value under the entry's key. */
  function Current(t: Task, f: Field): (r: Field)
    ensures Key(r) == Key(f)
  {
    match f
    case SubCategoryId(_) => SubCategoryId(t.subCategoryId)
    case CategoryId(_) => CategoryId(t.categoryId)
    case ProjectId(_) => ProjectId(t.projectId)
    case Title(_) => Title(t.title)
    case Description(_) => Description(t.description)
    case Status(_) => Status(t.status)
    case Priority(_) => Priority(t.priority)
    case Assignee(_) => Assignee(t.assignee)
    case DueDate(_) => DueDate(t.dueDate)
    case Progress(_) => Progress(t.progress)
    case Checklist(_) => Checklist(t.checklist)
    case ArchivedAt(_) => ArchivedAt(t.archivedAt)
    case UpdatedAt(_) => UpdatedAt(t.updatedAt)
  }

  /** The task with the entry's key overwritten. */
  function Set(t: Task, f: Field): Task {
    match f
    case SubCategoryId(v) => t.(subCategoryId := v)
    case CategoryId(v) => t.(categoryId := v)
    case ProjectId(v) => t.(projectId := v)
    case Title(v) => t.(title := v)
    case Description(v) => t.(description := v)
    case Status(v) => t.(status := v)
    case Priority(v) => t.(priority := v)
    case Assignee(v) => t.(assignee := v)
    case DueDate(v) => t.(dueDate := v)
    case Progress(v) => t.(progress := v)
    case Checklist(v) => t.(checklist := v)
    case ArchivedAt(v) => t.(archivedAt := v)
    case UpdatedAt(v) => t.(updatedAt := v)
  }

  /** Writing an entry makes it the current value of its key and leaves
      `createdAt` alone. */
  lemma SetSame(t: Task, f: Field)
    ensures Current(Set(t, f), f) == f
    ensures Set(t, f).createdAt == t.createdAt
  {
  }

  /** Writing an entry leaves every other key alone. */
  lemma SetOther(t: Task, f: Field, g: Field)
    requires Key(g) != Key(f)
    ensures Current(Set(t, f), g) == Current(t, g)
  {
    match f
    case SubCategoryId(_) =>
    case CategoryId(_) =>
    case ProjectId(_) =>
    case Title(_) =>
    case Description(_) =>
    case Status(_) =>
    case Priority(_) =>
    case Assignee(_) =>
    case DueDate(_) =>
    case Progress(_) =>
    case Checklist(_) =>
    case ArchivedAt(_) =>
    case UpdatedAt(_) =>
  }

  /** A JavaScript object has each key at most once. */
  ghost predicate DistinctKeys(patch: seq<Field>) {
    forall i, j :: 0 <= i < j < |patch| ==> Key(patch[i]) != Key(patch[j])
  }

  /** `{ ...existing, ...patch }`. */
  function ApplyPatch(t: Task, patch: seq<Field>): Task
    decreases |patch|
  {
    if patch == [] then t else ApplyPatch(Set(t, patch[0]), patch[1..])
  }

  /** The row `updateTask` stores: the patch spread over the stored task,
      then `updatedAt` set to `now`. */
  function Patched(t: Task, patch: seq<Field>, now: Time): Task {
    ApplyPatch(t, patch).(updatedAt := now)
  }

  /** After a patch every patched key holds the patch's value, every other
      key keeps the task's value, and `createdAt` is untouched. */
  lemma {:induction false} ApplyPatchFields(t: Task, patch: seq<Field>)
    requires DistinctKeys(patch)
    decreases |patch|
    ensures forall f :: f in patch ==> Current(ApplyPatch(t, patch), f) == f
    ensures forall g :: (forall f :: f in patch ==> Key(f) != Key(g)) ==> Current(ApplyPatch(t, patch), g) == Current(t, g)
    ensures ApplyPatch(t, patch).createdAt == t.createdAt
  {
    if patch != [] {
      var h, rest := patch[0], patch[1..];
      var u := Set(t, h);
      assert DistinctKeys(rest);
      ApplyPatchFields(u, rest);
      SetSame(t, h);
      forall f | f in rest ensures Key(f) != Key(h) {
        var j :| 0 <= j < |rest| && rest[j] == f;
        assert patch[j + 1] == f;
      }
      assert Current(ApplyPatch(u, rest), h) == Current(u, h);
      forall g | (forall f :: f in patch ==> Key(f) != Key(g))
        ensures Current(ApplyPatch(t, patch), g) == Current(t, g)
      {
        assert h in patch;
        forall f | f in rest ensures Key(f) != Key(g) {
          assert f in patch;
        }
        SetOther(t, h, g);
      }
    }
  }

  /** `updateTask`'s stored row: each patched key other than `updatedAt`
      holds the patch's value, `updatedAt` is `now`, every key the patch does
      not name and `createdAt` keep their old values. */
  lemma PatchedFields(t: Task, patch: seq<Field>, now: Time)
    requires DistinctKeys(patch)
    ensures Patched(t, patch, now).updatedAt == now
    ensures Patched(t, patch, now).createdAt == t.createdAt
    ensures forall f :: f in patch && Key(f) != UpdatedAtKey ==> Current(Patched(t, patch, now), f) == f
    ensures forall g :: Key(g) != UpdatedAtKey && (forall f :: f in patch ==> Key(f) != Key(g)) ==>
      Current(Patched(t, patch, now), g) == Current(t, g)
  {
    ApplyPatchFields(t, patch);
    var a := ApplyPatch(t, patch);
    var p := Patched(t, patch, now);
    assert p == Set(a, UpdatedAt(now));
    forall g | Key(g) != UpdatedAtKey ensures Current(p, g) == Current(a, g) {
      SetOther(a, UpdatedAt(now), g);
    }
  }

  /** The history test of `updateTask`: the key is not `updatedAt` and the
      serialised old and new values differ. */
  predicate Changed(t: Task, f: Field, ser: Json -> string) {
    Key(f) != UpdatedAtKey && ser(ValueJson(Current(t, f))) != ser(ValueJson(f))
  }

  /** The history row written for a changed entry. */
  function HistoryRow(id: Id, t: Task, f: Field, ser: Json -> string, now: Time): TaskHistory {
    TaskHistory(id, Name(Key(f)), ser(ValueJson(Current(t, f))), ser(ValueJson(f)), now)
  }

  /** The history rows one patch entry contributes: one if it changed the value, none otherwise. */
  function HistoryStep(id: Id, t: Task, f: Field, ser: Json -> string, now: Time): seq<TaskHistory> {
    if Changed(t, f, ser) then [HistoryRow(id, t, f, ser, now)] else []
  }

  /** The history rows `updateTask` appends, in patch order; each names the
      task, `now` and two different serialised values. */
  function HistoryRows(id: Id, t: Task, patch: seq<Field>, ser: Json -> string, now: Time): (r: seq<TaskHistory>)
    ensures |r| <= |patch|
    ensures forall i :: 0 <= i < |r| ==>
      r[i].taskId == id && r[i].changedAt == now && r[i].oldValue != r[i].newValue
  {
    if patch == [] then []
    else HistoryRows(id, t, patch[..|patch| - 1], ser, now) + HistoryStep(id, t, patch[|patch| - 1], ser, now)
  }

  /** There is a history row for every changed entry of the patch, and every
      history row is the row of a changed entry. */
  lemma {:induction false} HistoryRowsExact(id: Id, t: Task, patch: seq<Field>, ser: Json -> string, now: Time)
    ensures forall f :: f in patch && Changed(t, f, ser) ==> HistoryRow(id, t, f, ser, now) in HistoryRows(id, t, patch, ser, now)
    ensures forall h :: h in HistoryRows(id, t, patch, ser, now) ==>
      exists f :: f in patch && Changed(t, f, ser) && h == HistoryRow(id, t, f, ser, now)
  {
    if patch != [] {
      var init := patch[..|patch| - 1];
      var last := patch[|patch| - 1];
      assert patch == init + [last];
      HistoryRowsExact(id, t, init, ser, now);
    }
  }

  ghost predicate FieldsDistinct(rows: seq<TaskHistory>) {
    forall i, j :: 0 <= i < j < |rows| ==> rows[i].field != rows[j].field
  }

  /** With distinct patch keys no two history rows name the same field, so
      each changed key has exactly one row. */
  lemma {:induction false} HistoryOnePerKey(id: Id, t: Task, patch: seq<Field>, ser: Json -> string, now: Time)
    requires DistinctKeys(patch)
    ensures FieldsDistinct(HistoryRows(id, t, patch, ser, now))
  {
    if patch != [] {
      var init := patch[..|patch| - 1];
      var last := patch[|patch| - 1];
      assert DistinctKeys(init);
      HistoryOnePerKey(id, t, init, ser, now);
      HistoryRowsExact(id, t, init, ser, now);
      var prev := HistoryRows(id, t, init, ser, now);
      forall i | 0 <= i < |prev| ensures prev[i].field != Name(Key(last)) {
        assert prev[i] in prev;
        var f :| f in init && Changed(t, f, ser) && prev[i] == HistoryRow(id, t, f, ser, now);
        var k :| 0 <= k < |init| && init[k] == f;
        assert patch[k] == f;
        NamesDiffer(Key(f), Key(last));
      }
      assert FieldsDistinct(prev);
      var r := HistoryRows(id, t, patch, ser, now);
      assert r == prev + HistoryStep(id, t, last, ser, now);
      forall i, j | 0 <= i < j < |r| ensures r[i].field != r[j].field {
        if j < |prev| {
          assert r[i] == prev[i] && r[j] == prev[j];
          assert prev[i].field != prev[j].field;
        } else {
          assert r[j] == HistoryRow(id, t, last, ser, now);
          assert r[i] == prev[i];
        }
      }
    }
  }

  /** A patch that writes back the values already stored adds no history. */
  lemma {:induction false} UnchangedPatchNoHistory(id: Id, t: Task, patch: seq<Field>, ser: Json -> string, now: Time)
    requires forall f :: f in patch ==> Current(t, f) == f
    ensures HistoryRows(id, t, patch, ser, now) == []
  {
    if patch != [] {
      var init := patch[..|patch| - 1];
      assert forall f :: f in init ==> f in patch;
      UnchangedPatchNoHistory(id, t, init, ser, now);
      assert patch[|patch| - 1] in patch;
    }
  }

  /** Reads a history row's `field` back as a key. */
  function KeyNamed(s: string): Option<FieldName> {
    if s == "subCategoryId" then Some(SubCategoryIdKey)
    else if s == "categoryId" then Some(CategoryIdKey)
    else if s == "projectId" then Some(ProjectIdKey)
    else if s == "title" then Some(TitleKey)
    else if s == "description" then Some(DescriptionKey)
    else if s == "status" then Some(StatusKey)
    else if s == "priority" then Some(PriorityKey)
    else if s == "assignee" then Some(AssigneeKey)
    else if s == "dueDate" then Some(DueDateKey)
    else if s == "progress" then Some(ProgressKey)
    else if s == "checklist" then Some(ChecklistKey)
    else if s == "archivedAt" then Some(ArchivedAtKey)
    else if s == "updatedAt" then Some(UpdatedAtKey)
    else None
  }

  lemma KeyNamedName(k: FieldName)
    ensures KeyNamed(Name(k)) == Some(k)
  {
  }

  lemma NamesDiffer(a: FieldName, b: FieldName)
    requires a != b
    ensures Name(a) != Name(b)
  {
    KeyNamedName(a);
    KeyNamedName(b);
  }

  lemma NamesInjective()
    ensures forall a, b :: StatusName(a) == StatusName(b) ==> a == b
    ensures forall a, b :: PriorityName(a) == PriorityName(b) ==> a == b
  {
  }

  lemma ChecklistJsonInjective(a: seq<ChecklistItem>, b: seq<ChecklistItem>)
    requires ChecklistJson(a) == ChecklistJson(b)
    ensures a == b
  {
    assert |a| == |ChecklistJson(a).items| == |ChecklistJson(b).items| == |b|;
    forall i | 0 <= i < |a| ensures a[i] == b[i] {
      assert ItemJson(a[i]) == ChecklistJson(a).items[i] == ChecklistJson(b).items[i] == ItemJson(b[i]);
    }
  }

  /** Two entries under one key with the same JSON value are the same entry. */
  lemma ValueJsonInjective(f: Field, g: Field)
    requires Key(f) == Key(g) && ValueJson(f) == ValueJson(g)
    ensures f == g
  {
    NamesInjective();
    if f.Checklist? {
      ChecklistJsonInjective(f.items, g.items);
    }
  }

  /** With an injective serialiser, an entry is recorded exactly when its key
      is not `updatedAt` and its value differs from the stored one. */
  lemma ChangedIffDiffers(t: Task, f: Field, ser: Json -> string)
    requires Injective(ser)
    ensures Changed(t, f, ser) <==> Key(f) != UpdatedAtKey && Current(t, f) != f
  {
    if Key(f) != UpdatedAtKey && Current(t, f) != f {
      if ValueJson(Current(t, f)) == ValueJson(f) {
        ValueJsonInjective(Current(t, f), f);
      }
    }
  }

  /** `updateTask(id, patch)`: a missing id writes nothing; otherwise the
      row becomes the patched task and one history row is appended per
      changed entry, in one transaction over `tasks` and `taskHistory`. */
  method UpdateTask(db: Database, id: Id, patch: seq<Field>, ser: Json -> string, now: Time)
    requires db.Valid()
    modifies db
    ensures db.Valid()
    ensures db.projects == old(db.projects) && db.categories == old(db.categories)
    ensures db.subCategories == old(db.subCategories)
    ensures id !in old(db.tasks.rows) ==> db.tasks == old(db.tasks) && db.taskHistory == old(db.taskHistory)
    ensures id in old(db.tasks.rows) ==>
      && db.tasks == old(db.tasks).Replace(id, Patched(old(db.tasks.rows[id]), patch, now))
      && db.taskHistory == AddAll(old(db.taskHistory), HistoryRows(id, old(db.tasks.rows[id]), patch, ser, now))
  {
    if id !in db.tasks.rows {
      return;
    }
    var existing := db.tasks.rows[id];
    var tasks := db.tasks.Replace(id, Patched(existing, patch, now));
    assert tasks.rows.Keys == db.tasks.rows.Keys;
    var history := WriteHistory(db.taskHistory, id, existing, patch, ser, now);
    db.tasks, db.taskHistory := tasks, history;
  }

  /** The loop of `updateTask` over the patch keys: appends the history row
      of every changed entry to the history table, in patch order. */
  method WriteHistory(history: Table<TaskHistory>, id: Id, existing: Task, patch: seq<Field>, ser: Json -> string, now: Time)
    returns (written: Table<TaskHistory>)
    requires history.Valid()
    ensures written.Valid()
    ensures written == AddAll(history, HistoryRows(id, existing, patch, ser, now))
  {
    written := history;
    var i := 0;
    while i < |patch|
      invariant 0 <= i <= |patch|
      invariant written == AddAll(history, HistoryRows(id, existing, patch[..i], ser, now))
    {
      var f := patch[i];
      ghost var rows := HistoryRows(id, existing, patch[..i], ser, now);
      assert patch[..i + 1][..i] == patch[..i];
      assert HistoryRows(id, existing, patch[..i + 1], ser, now) == rows + HistoryStep(id, existing, f, ser, now);
      if Key(f) != UpdatedAtKey {
        var oldValue := ser(ValueJson(Current(existing, f)));
        var newValue := ser(ValueJson(f));
        if oldValue != newValue {
          AddAllSnoc(history, rows, HistoryRow(id, existing, f, ser, now));
          written := written.Add(TaskHistory(id, Name(Key(f)), oldValue, newValue, now));
        } else {
          assert rows + HistoryStep(id, existing, f, ser, now) == rows;
        }
      } else {
        assert rows + HistoryStep(id, existing, f, ser, now) == rows;
      }
      i := i + 1;
    }
    assert patch[..i] == patch;
    AddAllValid(history, HistoryRows(id, existing, patch, ser, now));
  }

  /** `createTask(data)`: stores the fields under a fresh id with
      `createdAt = updatedAt = now` and returns the id. */
  method CreateTask(db: Database, data: Task, now: Time) returns (id: Id)
    requires db.Valid()
    modifies db
    ensures db.Valid()
    ensures id == old(db.tasks.next) && id !in old(db.tasks.rows)
    ensures db.tasks == old(db.tasks).Add(data.(createdAt := now, updatedAt := now))
    ensures db.projects == old(db.projects) && db.categories == old(db.categories)
    ensures db.subCategories == old(db.subCategories) && db.taskHistory == old(db.taskHistory)
  {
    id := db.tasks.next;
    db.tasks := db.tasks.Add(data.(createdAt := now, updatedAt := now));
  }

  /** `useTasks(subCategoryId)`: nothing for `null`, otherwise the tasks of
      that SubCategory in primary-key order. */
  function TasksOf(tasks: Table<Task>, subCategoryId: Option<Id>): seq<Row<Task>> {
    match subCategoryId
    case None => []
    case Some(s) => Filter(RowsOf(tasks), (r: Row<Task>) => r.value.subCategoryId == s)
  }

  lemma TasksOfExact(tasks: Table<Task>, subCategoryId: Option<Id>)
    requires tasks.Valid()
    ensures subCategoryId == None ==> TasksOf(tasks, subCategoryId) == []
    ensures subCategoryId.Some? ==> forall r ::
      r in TasksOf(tasks, subCategoryId) <==>
        r.id in tasks.rows && tasks.rows[r.id] == r.value && r.value.subCategoryId == subCategoryId.value
  {
    RowsOfExact(tasks);
  }

  /** Newest first by `changedAt`. */
  predicate NewerFirst(a: Row<TaskHistory>, b: Row<TaskHistory>) {
    b.value.changedAt <= a.value.changedAt
  }

  /** `reverse()`: the same rows, last first. */
  function Reversed<T>(s: seq<T>): (r: seq<T>)
    ensures |r| == |s| && multiset(r) == multiset(s)
    ensures forall i :: 0 <= i < |s| ==> r[i] == s[|s| - 1 - i]
  {
    if s == [] then [] else
      assert s == [s[0]] + s[1..];
      Reversed(s[1..]) + [s[0]]
  }

  /** `where('taskId').equals(k)`: the task's history rows in key order. */
  function RowsOfTask(history: Table<TaskHistory>, k: Id): seq<Row<TaskHistory>> {
    Filter(RowsOf(history), (r: Row<TaskHistory>) => r.value.taskId == k)
  }

  /** `useTaskHistory(taskId)`: the task's history rows, walked backwards and
      then stably sorted newest `changedAt` first. */
  function HistoryOf(history: Table<TaskHistory>, taskId: Option<Id>): seq<Row<TaskHistory>> {
    match taskId
    case None => []
    case Some(k) =>
      assert TotalPreorder(NewerFirst);
      SortBy(Reversed(RowsOfTask(history, k)), NewerFirst)
  }

  /** The history list holds exactly the task's rows. */
  lemma HistoryOfExact(history: Table<TaskHistory>, taskId: Option<Id>)
    requires history.Valid()
    ensures taskId == None ==> HistoryOf(history, taskId) == []
    ensures taskId.Some? ==> forall r ::
      r in HistoryOf(history, taskId) <==>
        r.id in history.rows && history.rows[r.id] == r.value && r.value.taskId == taskId.value
  {
    if taskId.Some? {
      RowsOfExact(history);
      var k := taskId.value;
      var f := RowsOfTask(history, k);
      var h := HistoryOf(history, taskId);
      assert multiset(h) == multiset(f);
      forall r ensures r in h <==> r in f {
        assert r in h <==> r in multiset(h);
        assert r in f <==> r in multiset(f);
      }
    }
  }

  /** The history list is ordered newest `changedAt` first. */
  lemma HistoryOfNewestFirst(history: Table<TaskHistory>, taskId: Option<Id>)
    ensures var h := HistoryOf(history, taskId);
      forall i, j :: 0 <= i < j < |h| ==> h[j].value.changedAt <= h[i].value.changedAt
  {
    var h := HistoryOf(history, taskId);
    assert Sorted(h, NewerFirst);
    forall i, j | 0 <= i < j < |h| ensures h[j].value.changedAt <= h[i].value.changedAt {
      assert NewerFirst(h[i], h[j]);
    }
  }

  /** Of two rows, the one with the higher key first. */
  predicate HigherKeyFirst(a: Row<TaskHistory>, b: Row<TaskHistory>) {
    b.id < a.id
  }

  /** The task's rows walked backwards come in decreasing key order. */
  lemma ReversedWalkHigherFirst(history: Table<TaskHistory>, k: Id)
    ensures TieOrdered(Reversed(RowsOfTask(history, k)), NewerFirst, HigherKeyFirst)
  {
    SelectKeepsOrder(RowsOf(history), (r: Row<TaskHistory>) => r.value.taskId == k, KeyBefore);
    ReversedHigherFirst(RowsOfTask(history, k));
  }

  lemma ReversedHigherFirst(f: seq<Row<TaskHistory>>)
    requires forall i, j :: 0 <= i < j < |f| ==> KeyBefore(f[i], f[j])
    ensures TieOrdered(Reversed(f), NewerFirst, HigherKeyFirst)
  {
    var rev := Reversed(f);
    forall i, j | 0 <= i < j < |rev| ensures HigherKeyFirst(rev[i], rev[j]) {
      assert rev[i] == f[|f| - 1 - i] && rev[j] == f[|f| - 1 - j];
      assert KeyBefore(f[|f| - 1 - j], f[|f| - 1 - i]);
    }
    StrictlyOrderedTies(rev, NewerFirst, HigherKeyFirst);
  }

  /** Rows with the same `changedAt` are listed higher key first: the
      reversed walk gives them that order and the stable sort keeps it. */
  lemma HistoryOfTiesNewestKeyFirst(history: Table<TaskHistory>, taskId: Option<Id>)
    ensures var h := HistoryOf(history, taskId);
      forall i, j :: 0 <= i < j < |h| && h[i].value.changedAt == h[j].value.changedAt ==> h[j].id < h[i].id
  {
    if taskId.Some? {
      var k := taskId.value;
      ReversedWalkHigherFirst(history, k);
      SortedHistoryTies(Reversed(RowsOfTask(history, k)));
      TiesHigherKeyFirst(HistoryOf(history, taskId));
    }
  }

  /** Sorting newest first keeps the higher-key-first order of ties. */
  lemma SortedHistoryTies(rev: seq<Row<TaskHistory>>)
    requires TieOrdered(rev, NewerFirst, HigherKeyFirst)
    ensures TotalPreorder(NewerFirst)
    ensures TieOrdered(SortBy(rev, NewerFirst), NewerFirst, HigherKeyFirst)
  {
    assert TotalPreorder(NewerFirst);
    SortByKeepsTieOrder(rev, NewerFirst, HigherKeyFirst);
  }

  lemma TiesHigherKeyFirst(h: seq<Row<TaskHistory>>)
    requires TieOrdered(h, NewerFirst, HigherKeyFirst)
    ensures forall i, j :: 0 <= i < j < |h| && h[i].value.changedAt == h[j].value.changedAt ==> h[j].id < h[i].id
  {
    forall i, j | 0 <= i < j < |h| && h[i].value.changedAt == h[j].value.changedAt
      ensures h[j].id < h[i].id
    {
      assert NewerFirst(h[i], h[j]) && NewerFirst(h[j], h[i]);
      assert HigherKeyFirst(h[i], h[j]);
    }
  }

  /** Oldest `createdAt` first. */
  predicate OlderCreatedFirst(a: Row<Task>, b: Row<Task>) {
    a.value.createdAt <= b.value.createdAt
  }

  /** `useAllTasks()`: every task, archived ones included, in `createdAt`
      order (ties in key order, as the index walk yields them). */
  function AllTasks(tasks: Table<Task>): (r: seq<Row<Task>>)
    ensures Sorted(r, OlderCreatedFirst)
  {
    assert TotalPreorder(OlderCreatedFirst);
    SortBy(RowsOf(tasks), OlderCreatedFirst)
  }

  /** Tasks created at the same instant are listed in key order. */
  lemma AllTasksTiesInKeyOrder(tasks: Table<Task>)
    ensures var r := AllTasks(tasks);
      forall i, j :: 0 <= i < j < |r| && r[i].value.createdAt == r[j].value.createdAt ==> r[i].id < r[j].id
  {
    var rows := RowsOf(tasks);
    assert forall i, j :: 0 <= i < j < |rows| ==> KeyBefore(rows[i], rows[j]);
    StrictlyOrderedTies(rows, OlderCreatedFirst, KeyBefore);
    assert TotalPreorder(OlderCreatedFirst);
    SortByKeepsTieOrder(rows, OlderCreatedFirst, KeyBefore);
    var r := AllTasks(tasks);
    forall i, j | 0 <= i < j < |r| && r[i].value.createdAt == r[j].value.createdAt
      ensures r[i].id < r[j].id
    {
      assert OlderCreatedFirst(r[i], r[j]) && OlderCreatedFirst(r[j], r[i]);
      assert KeyBefore(r[i], r[j]);
    }
  }

  /** The list holds exactly the stored tasks. */
  lemma AllTasksExact(tasks: Table<Task>)
    requires tasks.Valid()
    ensures forall r :: r in AllTasks(tasks) <==> r.id in tasks.rows && tasks.rows[r.id] == r.value
  {
    RowsOfExact(tasks);
    assert TotalPreorder(OlderCreatedFirst);
    SortedMembers(RowsOf(tasks), OlderCreatedFirst);
  }
}
