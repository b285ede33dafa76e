/** The store: five tables with auto-incremented primary keys (`++id`) and
    the indexed lookups the hooks use, the `Database` object that holds them,
    and the first-run seed. */
module Db {
  import opened Common
  import opened Types

  /** One table: its rows by primary key and the key generator. The generator
      starts at 1, hands out its current value on `add` and moves past any
      explicit key that reaches it; clearing the table does not reset it. */
  datatype Table<T> = Table(rows: map<Id, T>, next: nat) {

    /** Every stored key was handed out already, so the next one is fresh. */
    ghost predicate Valid() {
      1 <= next && forall k :: k in rows ==> k < next
    }

    /** `table.add(v)` without a key: stores `v` under the generator's value. */
    function Add(v: T): Table<T> {
      Table(rows[next := v], next + 1)
    }

    /** `table.add(v)` with an explicit key `id` (used by `bulkAdd` of rows that carry ids). */
    function Put(id: Id, v: T): Table<T> {
      Table(rows[id := v], if next <= id then id + 1 else next)
    }

    /** `table.update(k, changes)` with the changed row `v` already built from
        the stored one: a key that is not stored leaves the table alone. */
    function Replace(k: Id, v: T): Table<T> {
      if k in rows then Table(rows[k := v], next) else this
    }

    /** `table.bulkDelete(ids)` / `table.delete(id)`. */
    function Delete(ids: set<Id>): Table<T> {
      Table(rows - ids, next)
    }

    function Clear(): Table<T> {
      Table(map[], next)
    }
  }

  function EmptyTable<T>(): (t: Table<T>)
    ensures t.Valid() && t.rows == map[]
  {
    Table(map[], 1)
  }

  /** The rows of `m` whose key is below `n`, in increasing key order. */
  function RowsBelow<T>(m: map<Id, T>, n: nat): (r: seq<Row<T>>)
    ensures forall i :: 0 <= i < |r| ==> r[i].id < n && r[i].id in m && m[r[i].id] == r[i].value
    ensures forall i, j :: 0 <= i < j < |r| ==> r[i].id < r[j].id
    ensures forall k :: k < n && k in m ==> Row(k, m[k]) in r
  {
    if n == 0 then []
    else RowsBelow(m, n - 1) + (if n - 1 in m then [Row(n - 1, m[n - 1])] else [])
  }

  /** `table.toArray()`: every row, in primary-key order. */
  function RowsOf<T>(t: Table<T>): seq<Row<T>> {
    RowsBelow(t.rows, t.next)
  }

  lemma RowsOfExact<T>(t: Table<T>)
    requires t.Valid()
    ensures forall r :: r in RowsOf(t) <==> r.id in t.rows && t.rows[r.id] == r.value
    ensures forall i, j :: 0 <= i < j < |RowsOf(t)| ==> RowsOf(t)[i].id < RowsOf(t)[j].id
  {
    var rs := RowsOf(t);
    forall r | r in rs ensures r.id in t.rows && t.rows[r.id] == r.value {
      var i :| 0 <= i < |rs| && rs[i] == r;
    }
  }

  /** Of two rows, the one with the lower key first: the order of a walk. */
  predicate KeyBefore<T>(a: Row<T>, b: Row<T>) {
    a.id < b.id
  }

  /** The keys below `n` of the rows of `m` that `p` accepts, in increasing order. */
  function KeysBelow<T>(m: map<Id, T>, p: Row<T> -> bool, n: nat): (ks: seq<Id>)
    ensures forall k :: k in ks <==> k < n && k in m && p(Row(k, m[k]))
  {
    if n == 0 then []
    else KeysBelow(m, p, n - 1) + (if n - 1 in m && p(Row(n - 1, m[n - 1])) then [n - 1] else [])
  }

  /** The keys of the rows `p` accepts, in primary-key order: the ids of an
      index lookup `where(...).equals(...).toArray()`. */
  function IdsWhere<T>(t: Table<T>, p: Row<T> -> bool): seq<Id> {
    KeysBelow(t.rows, p, t.next)
  }

  /** An `add` keeps every row and stores the value under a key that was not in use. */
  lemma AddFresh<T>(t: Table<T>, v: T)
    requires t.Valid()
    ensures t.Add(v).Valid() && t.next !in t.rows
    ensures t.Add(v).rows.Keys == t.rows.Keys + {t.next}
    ensures |t.Add(v).rows| == |t.rows| + 1
  {
  }

  /** Successive `add`s of `vs`, in order, each under a fresh generated key. */
  function AddAll<T>(t: Table<T>, vs: seq<T>): Table<T> {
    if vs == [] then t else AddAll(t, vs[..|vs| - 1]).Add(vs[|vs| - 1])
  }

  /** Appending with generated keys keeps every existing row and puts the
      `i`-th new value under key `next + i`. */
  lemma {:induction false} AddAllContents<T>(t: Table<T>, vs: seq<T>)
    requires t.Valid()
    ensures AddAll(t, vs).Valid()
    ensures AddAll(t, vs).next == t.next + |vs|
    ensures forall k :: k in AddAll(t, vs).rows <==> k in t.rows || t.next <= k < t.next + |vs|
    ensures forall k :: k in t.rows ==> AddAll(t, vs).rows[k] == t.rows[k]
    ensures forall i :: 0 <= i < |vs| ==> AddAll(t, vs).rows[t.next + i] == vs[i]
    ensures |AddAll(t, vs).rows| == |t.rows| + |vs|
  {
    if vs != [] {
      var init := vs[..|vs| - 1];
      AddAllContents(t, init);
      var u := AddAll(t, init);
      assert u.next !in u.rows;
      forall i | 0 <= i < |vs| ensures AddAll(t, vs).rows[t.next + i] == vs[i] {
        if i < |vs| - 1 {
          assert init[i] == vs[i];
        }
      }
    }
  }

  lemma AddAllSnoc<T>(t: Table<T>, vs: seq<T>, v: T)
    ensures AddAll(t, vs + [v]) == AddAll(t, vs).Add(v)
  {
    assert (vs + [v])[..|vs|] == vs;
  }

  lemma AddAllValid<T>(t: Table<T>, vs: seq<T>)
    requires t.Valid()
    ensures AddAll(t, vs).Valid()
  {
    AddAllContents(t, vs);
  }

  /** The whole store, as the five tables. */
  datatype Store = Store(
    projects: Table<Project>,
    categories: Table<Category>,
    subCategories: Table<SubCategory>,
    tasks: Table<Task>,
    taskHistory: Table<TaskHistory>)
  {
    ghost predicate Valid() {
      && projects.Valid() && categories.Valid() && subCategories.Valid()
      && tasks.Valid() && taskHistory.Valid()
    }

    /** Every category names a stored project. */
    ghost predicate CategoriesLinked() {
      forall k :: k in categories.rows ==> categories.rows[k].projectId in projects.rows
    }

    /** Every SubCategory names a stored category and repeats its project. */
    ghost predicate SubCategoriesLinked() {
      forall k :: k in subCategories.rows ==>
        && subCategories.rows[k].categoryId in categories.rows
        && subCategories.rows[k].projectId == categories.rows[subCategories.rows[k].categoryId].projectId
    }

    /** Every task names a stored SubCategory and repeats its category and project. */
    ghost predicate TasksLinked() {
      forall k :: k in tasks.rows ==>
        && tasks.rows[k].subCategoryId in subCategories.rows
        && tasks.rows[k].categoryId == subCategories.rows[tasks.rows[k].subCategoryId].categoryId
        && tasks.rows[k].projectId == subCategories.rows[tasks.rows[k].subCategoryId].projectId
    }

    /** Every history row names a stored task. */
    ghost predicate HistoryLinked() {
      forall k :: k in taskHistory.rows ==> taskHistory.rows[k].taskId in tasks.rows
    }

    /** Referential integrity of the hierarchy: every parent reference names
        an existing row, and the denormalised `projectId`/`categoryId` copies
        agree with the ancestor chain. */
    ghost predicate Consistent() {
      CategoriesLinked() && SubCategoriesLinked() && TasksLinked() && HistoryLinked()
    }
  }

  function EmptyStore(): (s: Store)
    ensures s.Valid() && s.Consistent()
  {
    Store(EmptyTable(), EmptyTable(), EmptyTable(), EmptyTable(), EmptyTable())
  }

  /** The database object the hooks share. */
  class Database {
    var projects: Table<Project>
    var categories: Table<Category>
    var subCategories: Table<SubCategory>
    var tasks: Table<Task>
    var taskHistory: Table<TaskHistory>

    function Snapshot(): Store
      reads this
    {
      Store(projects, categories, subCategories, tasks, taskHistory)
    }

    ghost predicate Valid()
      reads this
    {
      Snapshot().Valid()
    }

    /** Writes the tables a committed transaction produced. */
    method Commit(s: Store)
      modifies this
      ensures Snapshot() == s
    {
      projects, categories, subCategories, tasks, taskHistory :=
        s.projects, s.categories, s.subCategories, s.tasks, s.taskHistory;
    }

    constructor ()
      ensures Valid() && Snapshot() == EmptyStore()
    {
      projects, categories, subCategories, tasks, taskHistory :=
        EmptyTable(), EmptyTable(), EmptyTable(), EmptyTable(), EmptyTable();
    }
  }

  function SeedProject(now: Time): Project {
    Project("Modbus TCP 드라이버 개발", "반도체 장비용 Modbus TCP 클라이언트 드라이버 라이브러리 개발",
            ProjectStatus.Active, "#3b82f6", None, now, now)
  }

  /** The seeded categories under project `pid`, in `add` order, `order` 0 and 1. */
  function SeedCategories(pid: Id, now: Time): (r: seq<Category>)
    ensures |r| == 2
    ensures forall i :: 0 <= i < 2 ==> r[i].projectId == pid && r[i].order == i && r[i].createdAt == now == r[i].updatedAt
  {
    [ Category(pid, "설계 및 아키텍처", 0, None, None, now, now),
      Category(pid, "구현", 1, None, None, now, now) ]
  }

  /** The seeded SubCategories: the first under category `cat1`, the other two under `cat2`. */
  function SeedSubCategories(cat1: Id, cat2: Id, pid: Id, now: Time): (r: seq<SubCategory>)
    ensures |r| == 3
    ensures r[0].categoryId == cat1 && r[1].categoryId == cat2 && r[2].categoryId == cat2
    ensures forall i :: 0 <= i < 3 ==> r[i].projectId == pid && r[i].createdAt == now == r[i].updatedAt
  {
    [ SubCategory(cat1, pid, "공개 API 설계", 0, None, None, now, now),
      SubCategory(cat2, pid, "소켓 통신", 0, None, None, now, now),
      SubCategory(cat2, pid, "재연결 정책", 1, None, None, now, now) ]
  }

  /** The seeded tasks: one in each seeded SubCategory, in `add` order. */
  function SeedTasks(pid: Id, cat1: Id, cat2: Id, sub1: Id, sub2: Id, sub3: Id, now: Time): (r: seq<Task>)
    ensures |r| == 3
    ensures r[0].subCategoryId == sub1 && r[0].categoryId == cat1
    ensures r[1].subCategoryId == sub2 && r[1].categoryId == cat2
    ensures r[2].subCategoryId == sub3 && r[2].categoryId == cat2
    ensures forall i :: 0 <= i < 3 ==> r[i].projectId == pid && r[i].createdAt == now == r[i].updatedAt
  {
    [ Task(sub1, cat1, pid, "ModbusDriver.h 공개 헤더 정의",
           "불투명 핸들(MODBUS_HANDLE) 및 전역 함수 시그니처 정의",
           Done, High, "나", "", 100,
           [ ChecklistItem("1", "MODBUS_HANDLE 타입 정의", true),
             ChecklistItem("2", "Create/Destroy 함수 선언", true),
             ChecklistItem("3", "SendSync 함수 선언", true) ],
           None, now, now),
      Task(sub2, cat2, pid, "Winsock2 연결 구현", "TCP connect, send, recv 기본 구현",
           InProgress, High, "나", "2026-03-15", 60,
           [ ChecklistItem("1", "WSAStartup/Cleanup RAII", true),
             ChecklistItem("2", "connect() 구현", true),
             ChecklistItem("3", "send/recv 타임아웃", false) ],
           None, now, now),
      Task(sub3, cat2, pid, "지수 백오프 재연결", "1s → 2s → 4s → ... → 30s cap 지수 백오프 구현",
           Todo, Medium, "나", "2026-03-20", 0, [], None, now, now) ]
  }

  /** The store after writing a seed into `s`: project `p` under the next
      project key, then the rows of `cs`, `us` and `ts`, each `add`ed with
      a generated key. */
  function SeedInto(s: Store, p: Project, cs: seq<Category>, us: seq<SubCategory>, ts: seq<Task>): Store {
    Store(s.projects.Add(p), AddAll(s.categories, cs), AddAll(s.subCategories, us), AddAll(s.tasks, ts), s.taskHistory)
  }

  /** The seed's rows name the keys their parents get when written into `s`:
      two categories under the new project, a SubCategory under the first new
      category and two under the second, and task `i` in new SubCategory `i`
      with that SubCategory's category and project. */
  ghost predicate SeedShaped(s: Store, cs: seq<Category>, us: seq<SubCategory>, ts: seq<Task>) {
    && |cs| == 2 && |us| == 3 && |ts| == 3
    && (forall i :: 0 <= i < 2 ==> cs[i].projectId == s.projects.next)
    && us[0].categoryId == s.categories.next
    && us[1].categoryId == s.categories.next + 1 && us[2].categoryId == s.categories.next + 1
    && (forall i :: 0 <= i < 3 ==> us[i].projectId == s.projects.next)
    && (forall i :: 0 <= i < 3 ==>
          && ts[i].subCategoryId == s.subCategories.next + i
          && ts[i].categoryId == us[i].categoryId
          && ts[i].projectId == s.projects.next)
  }

  /** The seed's rows are linked as `SeedShaped` demands. */
  lemma SeedIsShaped(s: Store, now: Time)
    ensures var pid, cat1, sub1 := s.projects.next, s.categories.next, s.subCategories.next;
      SeedShaped(s, SeedCategories(pid, now), SeedSubCategories(cat1, cat1 + 1, pid, now),
                 SeedTasks(pid, cat1, cat1 + 1, sub1, sub1 + 1, sub1 + 2, now))
  {
    var pid, cat1, sub1 := s.projects.next, s.categories.next, s.subCategories.next;
    var us := SeedSubCategories(cat1, cat1 + 1, pid, now);
    var ts := SeedTasks(pid, cat1, cat1 + 1, sub1, sub1 + 1, sub1 + 2, now);
    assert forall i :: 0 <= i < 3 ==> ts[i].categoryId == us[i].categoryId;
    assert forall i :: 0 <= i < 3 ==> ts[i].subCategoryId == sub1 + i;
  }

  /** Writing a seed adds exactly one project, `|cs|` categories, `|us|`
      SubCategories and `|ts|` tasks, leaves every existing row as it was and
      writes no history. */
  lemma SeedIntoCounts(s: Store, p: Project, cs: seq<Category>, us: seq<SubCategory>, ts: seq<Task>)
    requires s.Valid()
    ensures var r := SeedInto(s, p, cs, us, ts);
      && r.Valid()
      && |r.projects.rows| == |s.projects.rows| + 1
      && |r.categories.rows| == |s.categories.rows| + |cs|
      && |r.subCategories.rows| == |s.subCategories.rows| + |us|
      && |r.tasks.rows| == |s.tasks.rows| + |ts|
      && r.taskHistory == s.taskHistory
      && (forall k :: k in s.projects.rows ==> k in r.projects.rows && r.projects.rows[k] == s.projects.rows[k])
      && (forall k :: k in s.categories.rows ==> k in r.categories.rows && r.categories.rows[k] == s.categories.rows[k])
      && (forall k :: k in s.subCategories.rows ==> k in r.subCategories.rows && r.subCategories.rows[k] == s.subCategories.rows[k])
      && (forall k :: k in s.tasks.rows ==> k in r.tasks.rows && r.tasks.rows[k] == s.tasks.rows[k])
  {
    AddFresh(s.projects, p);
    AddAllContents(s.categories, cs);
    AddAllContents(s.subCategories, us);
    AddAllContents(s.tasks, ts);
  }

  /** Writing a well-shaped seed keeps referential integrity. */
  lemma SeedIntoConsistent(s: Store, p: Project, cs: seq<Category>, us: seq<SubCategory>, ts: seq<Task>)
    requires s.Valid() && s.Consistent() && SeedShaped(s, cs, us, ts)
    ensures SeedInto(s, p, cs, us, ts).Consistent()
  {
    var r := SeedInto(s, p, cs, us, ts);
    SeedCategoriesLinked(s, p, cs);
    SeedSubCategoriesLinked(s, cs, us);
    SeedTasksLinked(s, us, ts);
    assert r.HistoryLinked() by {
      AddAllContents(s.tasks, ts);
    }
  }

  lemma {:induction false} SeedCategoriesLinked(s: Store, p: Project, cs: seq<Category>)
    requires s.Valid() && s.CategoriesLinked()
    requires forall i :: 0 <= i < |cs| ==> cs[i].projectId == s.projects.next
    ensures Store(s.projects.Add(p), AddAll(s.categories, cs), s.subCategories, s.tasks, s.taskHistory).CategoriesLinked()
  {
    var ps, c := s.projects.Add(p), AddAll(s.categories, cs);
    AddAllContents(s.categories, cs);
    forall k | k in c.rows
      ensures c.rows[k].projectId in ps.rows
    {
      if k !in s.categories.rows {
        assert c.rows[k] == cs[k - s.categories.next];
      }
    }
  }

  lemma {:induction false} SeedSubCategoriesLinked(s: Store, cs: seq<Category>, us: seq<SubCategory>)
    requires s.Valid() && s.SubCategoriesLinked()
    requires forall i :: 0 <= i < |us| ==>
      && s.categories.next <= us[i].categoryId < s.categories.next + |cs|
      && us[i].projectId == cs[us[i].categoryId - s.categories.next].projectId
    ensures Store(s.projects, AddAll(s.categories, cs), AddAll(s.subCategories, us), s.tasks, s.taskHistory).SubCategoriesLinked()
  {
    var c, u := AddAll(s.categories, cs), AddAll(s.subCategories, us);
    AddAllContents(s.categories, cs);
    AddAllContents(s.subCategories, us);
    forall k | k in u.rows
      ensures u.rows[k].categoryId in c.rows
      ensures u.rows[k].projectId == c.rows[u.rows[k].categoryId].projectId
    {
      if k !in s.subCategories.rows {
        var x := us[k - s.subCategories.next];
        assert u.rows[k] == x;
        assert c.rows[x.categoryId] == cs[x.categoryId - s.categories.next];
      }
    }
  }

  lemma {:induction false} SeedTasksLinked(s: Store, us: seq<SubCategory>, ts: seq<Task>)
    requires s.Valid() && s.TasksLinked()
    requires forall i :: 0 <= i < |ts| ==>
      && s.subCategories.next <= ts[i].subCategoryId < s.subCategories.next + |us|
      && ts[i].categoryId == us[ts[i].subCategoryId - s.subCategories.next].categoryId
      && ts[i].projectId == us[ts[i].subCategoryId - s.subCategories.next].projectId
    ensures Store(s.projects, s.categories, AddAll(s.subCategories, us), AddAll(s.tasks, ts), s.taskHistory).TasksLinked()
  {
    var u, t := AddAll(s.subCategories, us), AddAll(s.tasks, ts);
    AddAllContents(s.subCategories, us);
    AddAllContents(s.tasks, ts);
    forall k | k in t.rows
      ensures t.rows[k].subCategoryId in u.rows
      ensures t.rows[k].categoryId == u.rows[t.rows[k].subCategoryId].categoryId
      ensures t.rows[k].projectId == u.rows[t.rows[k].subCategoryId].projectId
    {
      if k !in s.tasks.rows {
        var x := ts[k - s.tasks.next];
        assert t.rows[k] == x;
        assert u.rows[x.subCategoryId] == us[x.subCategoryId - s.subCategories.next];
      }
    }
  }

  lemma AddTwo<T>(t: Table<T>, vs: seq<T>)
    requires |vs| == 2
    ensures AddAll(t, vs) == t.Add(vs[0]).Add(vs[1])
  {
    assert vs[..1][..0] == [];
    assert AddAll(t, vs[..1]) == t.Add(vs[0]);
  }

  lemma AddThree<T>(t: Table<T>, vs: seq<T>)
    requires |vs| == 3
    ensures AddAll(t, vs) == t.Add(vs[0]).Add(vs[1]).Add(vs[2])
  {
    AddTwo(t, vs[..2]);
  }

  /** `seedDatabase`: does nothing once any project exists (archived ones
      included); otherwise writes the seed. */
  method SeedDatabase(db: Database, now: Time)
    requires db.Valid()
    modifies db
    ensures db.Valid()
    ensures old(|db.projects.rows|) > 0 ==> db.Snapshot() == old(db.Snapshot())
    ensures old(|db.projects.rows|) == 0 ==>
      var pid, cat1, sub1 := old(db.projects.next), old(db.categories.next), old(db.subCategories.next);
      && db.projects == old(db.projects).Add(SeedProject(now))
      && db.categories == AddAll(old(db.categories), SeedCategories(pid, now))
      && db.subCategories == AddAll(old(db.subCategories), SeedSubCategories(cat1, cat1 + 1, pid, now))
      && db.tasks == AddAll(old(db.tasks), SeedTasks(pid, cat1, cat1 + 1, sub1, sub1 + 1, sub1 + 2, now))
      && db.taskHistory == old(db.taskHistory)
  {
    if |db.projects.rows| > 0 {
      return;
    }
    WriteSeed(db, now);
  }

  /** The seed's writes: the hierarchy first, then its three tasks in one `bulkAdd`. */
  method WriteSeed(db: Database, now: Time)
    requires db.Valid()
    modifies db
    ensures db.Valid()
    ensures var pid, cat1, sub1 := old(db.projects.next), old(db.categories.next), old(db.subCategories.next);
      && db.projects == old(db.projects).Add(SeedProject(now))
      && db.categories == AddAll(old(db.categories), SeedCategories(pid, now))
      && db.subCategories == AddAll(old(db.subCategories), SeedSubCategories(cat1, cat1 + 1, pid, now))
      && db.tasks == AddAll(old(db.tasks), SeedTasks(pid, cat1, cat1 + 1, sub1, sub1 + 1, sub1 + 2, now))
      && db.taskHistory == old(db.taskHistory)
  {
    var pid, cat1, cat2, sub1, sub2, sub3 := SeedHierarchy(db, now);
    BulkAdd(db, SeedTasks(pid, cat1, cat2, sub1, sub2, sub3, now));
  }

  /** The first part of the seed: `add`s the project, then its two
      categories, then the three SubCategories, and returns the keys the
      `add`s generated. */
  method SeedHierarchy(db: Database, now: Time) returns (pid: Id, cat1: Id, cat2: Id, sub1: Id, sub2: Id, sub3: Id)
    requires db.Valid()
    modifies db
    ensures db.Valid()
    ensures pid == old(db.projects.next) && cat1 == old(db.categories.next) && cat2 == cat1 + 1
    ensures sub1 == old(db.subCategories.next) && sub2 == sub1 + 1 && sub3 == sub1 + 2
    ensures db.projects == old(db.projects).Add(SeedProject(now))
    ensures db.categories == AddAll(old(db.categories), SeedCategories(pid, now))
    ensures db.subCategories == AddAll(old(db.subCategories), SeedSubCategories(cat1, cat2, pid, now))
    ensures db.tasks == old(db.tasks) && db.taskHistory == old(db.taskHistory)
  {
    ghost var s := db.Snapshot();
    pid := db.projects.next;
    AddFresh(db.projects, SeedProject(now));
    db.projects := db.projects.Add(SeedProject(now));
    var cats := SeedCategories(pid, now);
    cat1 := db.categories.next;
    db.categories := db.categories.Add(cats[0]);
    cat2 := db.categories.next;
    db.categories := db.categories.Add(cats[1]);
    AddTwo(s.categories, cats);
    AddAllValid(s.categories, cats);
    var subs := SeedSubCategories(cat1, cat2, pid, now);
    sub1 := db.subCategories.next;
    db.subCategories := db.subCategories.Add(subs[0]);
    sub2 := db.subCategories.next;
    db.subCategories := db.subCategories.Add(subs[1]);
    sub3 := db.subCategories.next;
    db.subCategories := db.subCategories.Add(subs[2]);
    AddThree(s.subCategories, subs);
    AddAllValid(s.subCategories, subs);
  }

  /** `db.tasks.bulkAdd(vs)`: the values added one after another with generated keys. */
  method BulkAdd(db: Database, vs: seq<Task>)
    requires db.Valid()
    modifies db
    ensures db.Valid()
    ensures db.tasks == AddAll(old(db.tasks), vs)
    ensures db.projects == old(db.projects) && db.categories == old(db.categories)
    ensures db.subCategories == old(db.subCategories) && db.taskHistory == old(db.taskHistory)
  {
    AddAllContents(db.tasks, vs);
    var i := 0;
    while i < |vs|
      invariant 0 <= i <= |vs|
      invariant db.tasks == AddAll(old(db.tasks), vs[..i])
      invariant db.projects == old(db.projects) && db.categories == old(db.categories)
      invariant db.subCategories == old(db.subCategories) && db.taskHistory == old(db.taskHistory)
    {
      assert vs[..i + 1][..i] == vs[..i];
      db.tasks := db.tasks.Add(vs[i]);
      i := i + 1;
    }
    assert vs[..i] == vs;
  }
}
