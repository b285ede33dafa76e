/** The project, category and SubCategory hooks: creation, partial updates,
    project archival, and the list queries (`useProjects`, `useCategories`,
    `useSubCategories`, `useSubCategoriesByProject`). */
module Groups {
  import opened Common
  import opened Types
  import opened Db

  /** A property of a partial update: the new value when the patch names the key. */
  function Over<T>(change: Option<T>, current: T): T {
    match change
    case None => current
    case Some(v) => v
  }

  /** `Partial<Omit<Project, 'id' | 'createdAt'>>`; a given `updatedAt` is
      always replaced by the hook, so it is not carried. */
  datatype ProjectPatch = ProjectPatch(
    name: Option<string>,
    description: Option<string>,
    status: Option<ProjectStatus>,
    color: Option<string>,
    archivedAt: Option<Option<Time>>)

  datatype CategoryPatch = CategoryPatch(
    projectId: Option<Id>,
    name: Option<string>,
    order: Option<int>,
    status: Option<Option<GroupStatus>>,
    archivedAt: Option<Option<Time>>)

  datatype SubCategoryPatch = SubCategoryPatch(
    categoryId: Option<Id>,
    projectId: Option<Id>,
    name: Option<string>,
    order: Option<int>,
    status: Option<Option<GroupStatus>>,
    archivedAt: Option<Option<Time>>)

  /** `{ ...existing, ...patch, updatedAt: now }` for a project. */
  function PatchProject(p: Project, patch: ProjectPatch, now: Time): Project {
    Project(
      Over(patch.name, p.name), Over(patch.description, p.description), Over(patch.status, p.status),
      Over(patch.color, p.color), Over(patch.archivedAt, p.archivedAt), p.createdAt, now)
  }

  function PatchCategory(c: Category, patch: CategoryPatch, now: Time): Category {
    Category(
      Over(patch.projectId, c.projectId), Over(patch.name, c.name), Over(patch.order, c.order),
      Over(patch.status, c.status), Over(patch.archivedAt, c.archivedAt), c.createdAt, now)
  }

  function PatchSubCategory(u: SubCategory, patch: SubCategoryPatch, now: Time): SubCategory {
    SubCategory(
      Over(patch.categoryId, u.categoryId), Over(patch.projectId, u.projectId), Over(patch.name, u.name),
      Over(patch.order, u.order), Over(patch.status, u.status), Over(patch.archivedAt, u.archivedAt),
      u.createdAt, now)
  }

  /** An update keeps `createdAt`, stamps `updatedAt`, and applying the same
      update again at the same instant changes nothing further. */
  lemma PatchesSettle(p: Project, pp: ProjectPatch, c: Category, cp: CategoryPatch,
                      u: SubCategory, up: SubCategoryPatch, now: Time)
    ensures PatchProject(p, pp, now).createdAt == p.createdAt && PatchProject(p, pp, now).updatedAt == now
    ensures PatchProject(PatchProject(p, pp, now), pp, now) == PatchProject(p, pp, now)
    ensures PatchCategory(c, cp, now).createdAt == c.createdAt && PatchCategory(c, cp, now).updatedAt == now
    ensures PatchCategory(PatchCategory(c, cp, now), cp, now) == PatchCategory(c, cp, now)
    ensures PatchSubCategory(u, up, now).createdAt == u.createdAt && PatchSubCategory(u, up, now).updatedAt == now
    ensures PatchSubCategory(PatchSubCategory(u, up, now), up, now) == PatchSubCategory(u, up, now)
  {
  }

  /** A patch that names nothing only refreshes `updatedAt`. */
  lemma EmptyPatchTouchesOnly(p: Project, c: Category, u: SubCategory, now: Time)
    ensures PatchProject(p, ProjectPatch(None, None, None, None, None), now) == p.(updatedAt := now)
    ensures PatchCategory(c, CategoryPatch(None, None, None, None, None), now) == c.(updatedAt := now)
    ensures PatchSubCategory(u, SubCategoryPatch(None, None, None, None, None, None), now) == u.(updatedAt := now)
  {
  }

  /** `createProject(data)`: stored unarchived with `createdAt = updatedAt = now`. */
  method CreateProject(db: Database, data: Project, now: Time) returns (id: Id)
    requires db.Valid()
    modifies db
    ensures db.Valid()
    ensures id == old(db.projects.next) && id !in old(db.projects.rows)
    ensures db.projects == old(db.projects).Add(data.(archivedAt := None, createdAt := now, updatedAt := now))
    ensures db.categories == old(db.categories) && db.subCategories == old(db.subCategories)
    ensures db.tasks == old(db.tasks) && db.taskHistory == old(db.taskHistory)
  {
    id := db.projects.next;
    db.projects := db.projects.Add(data.(archivedAt := None, createdAt := now, updatedAt := now));
  }

  /** `updateProject(id, patch)`: a missing id is left alone. */
  method UpdateProject(db: Database, id: Id, patch: ProjectPatch, now: Time)
    requires db.Valid()
    modifies db
    ensures db.Valid()
    ensures id in old(db.projects.rows) ==>
      db.projects == old(db.projects).Replace(id, PatchProject(old(db.projects.rows[id]), patch, now))
    ensures id !in old(db.projects.rows) ==> db.projects == old(db.projects)
    ensures db.categories == old(db.categories) && db.subCategories == old(db.subCategories)
    ensures db.tasks == old(db.tasks) && db.taskHistory == old(db.taskHistory)
  {
    if id in db.projects.rows {
      db.projects := db.projects.Replace(id, PatchProject(db.projects.rows[id], patch, now));
    }
  }

  /** `archiveProject(id)`: stamps `archivedAt` and `updatedAt` on that
      project alone; its categories, SubCategories and tasks are not touched.
      The source reads the clock once for each field, so the two stamps are
      separate parameters and need not be equal. */
  method ArchiveProject(db: Database, id: Id, archivedNow: Time, updatedNow: Time)
    requires db.Valid()
    modifies db
    ensures db.Valid()
    ensures id in old(db.projects.rows) ==>
      db.projects == old(db.projects).Replace(id, old(db.projects.rows[id]).(archivedAt := Some(archivedNow), updatedAt := updatedNow))
    ensures id !in old(db.projects.rows) ==> db.projects == old(db.projects)
    ensures db.categories == old(db.categories) && db.subCategories == old(db.subCategories)
    ensures db.tasks == old(db.tasks) && db.taskHistory == old(db.taskHistory)
  {
    if id in db.projects.rows {
      db.projects := db.projects.Replace(id, db.projects.rows[id].(archivedAt := Some(archivedNow), updatedAt := updatedNow));
    }
  }

  /** `createCategory(data)`: stored as given with `createdAt = updatedAt = now`. */
  method CreateCategory(db: Database, data: Category, now: Time) returns (id: Id)
    requires db.Valid()
    modifies db
    ensures db.Valid()
    ensures id == old(db.categories.next) && id !in old(db.categories.rows)
    ensures db.categories == old(db.categories).Add(data.(createdAt := now, updatedAt := now))
    ensures db.projects == old(db.projects) && db.subCategories == old(db.subCategories)
    ensures db.tasks == old(db.tasks) && db.taskHistory == old(db.taskHistory)
  {
    id := db.categories.next;
    db.categories := db.categories.Add(data.(createdAt := now, updatedAt := now));
  }

  /** `updateCategory(id, patch)`: a missing id is left alone. */
  method UpdateCategory(db: Database, id: Id, patch: CategoryPatch, now: Time)
    requires db.Valid()
    modifies db
    ensures db.Valid()
    ensures id in old(db.categories.rows) ==>
      db.categories == old(db.categories).Replace(id, PatchCategory(old(db.categories.rows[id]), patch, now))
    ensures id !in old(db.categories.rows) ==> db.categories == old(db.categories)
    ensures db.projects == old(db.projects) && db.subCategories == old(db.subCategories)
    ensures db.tasks == old(db.tasks) && db.taskHistory == old(db.taskHistory)
  {
    if id in db.categories.rows {
      db.categories := db.categories.Replace(id, PatchCategory(db.categories.rows[id], patch, now));
    }
  }

  /** `createSubCategory(data)`: stored as given with `createdAt = updatedAt = now`. */
  method CreateSubCategory(db: Database, data: SubCategory, now: Time) returns (id: Id)
    requires db.Valid()
    modifies db
    ensures db.Valid()
    ensures id == old(db.subCategories.next) && id !in old(db.subCategories.rows)
    ensures db.subCategories == old(db.subCategories).Add(data.(createdAt := now, updatedAt := now))
    ensures db.projects == old(db.projects) && db.categories == old(db.categories)
    ensures db.tasks == old(db.tasks) && db.taskHistory == old(db.taskHistory)
  {
    id := db.subCategories.next;
    db.subCategories := db.subCategories.Add(data.(createdAt := now, updatedAt := now));
  }

  /** `updateSubCategory(id, patch)`: a missing id is left alone. */
  method UpdateSubCategory(db: Database, id: Id, patch: SubCategoryPatch, now: Time)
    requires db.Valid()
    modifies db
    ensures db.Valid()
    ensures id in old(db.subCategories.rows) ==>
      db.subCategories == old(db.subCategories).Replace(id, PatchSubCategory(old(db.subCategories.rows[id]), patch, now))
    ensures id !in old(db.subCategories.rows) ==> db.subCategories == old(db.subCategories)
    ensures db.projects == old(db.projects) && db.categories == old(db.categories)
    ensures db.tasks == old(db.tasks) && db.taskHistory == old(db.taskHistory)
  {
    if id in db.subCategories.rows {
      db.subCategories := db.subCategories.Replace(id, PatchSubCategory(db.subCategories.rows[id], patch, now));
    }
  }

  // List queries. An index walk yields rows in primary-key order within
  // one index value, and JavaScript's sort is stable, so ties keep key order.

  predicate OlderProjectFirst(a: Row<Project>, b: Row<Project>) {
    a.value.createdAt <= b.value.createdAt
  }

  predicate CategoryOrderFirst(a: Row<Category>, b: Row<Category>) {
    a.value.order <= b.value.order
  }

  predicate SubCategoryOrderFirst(a: Row<SubCategory>, b: Row<SubCategory>) {
    a.value.order <= b.value.order
  }

  /** `useProjects().projects`: the projects that are not archived, oldest first. */
  function ActiveProjects(projects: Table<Project>): (r: seq<Row<Project>>)
    ensures Sorted(r, OlderProjectFirst)
  {
    assert TotalPreorder(OlderProjectFirst);
    SortBy(Filter(RowsOf(projects), (r: Row<Project>) => r.value.archivedAt.None?), OlderProjectFirst)
  }

  /** `useCategories(projectId)`: the project's categories by `order`; nothing for `null`. */
  function CategoriesOf(categories: Table<Category>, projectId: Option<Id>): (r: seq<Row<Category>>)
    ensures Sorted(r, CategoryOrderFirst)
  {
    match projectId
    case None => []
    case Some(pid) =>
      assert TotalPreorder(CategoryOrderFirst);
      SortBy(Filter(RowsOf(categories), (r: Row<Category>) => r.value.projectId == pid), CategoryOrderFirst)
  }

  /** `useSubCategories(categoryId)`: the category's SubCategories by `order`; nothing for `null`. */
  function SubCategoriesOf(subCategories: Table<SubCategory>, categoryId: Option<Id>): (r: seq<Row<SubCategory>>)
    ensures Sorted(r, SubCategoryOrderFirst)
  {
    match categoryId
    case None => []
    case Some(cid) =>
      assert TotalPreorder(SubCategoryOrderFirst);
      SortBy(Filter(RowsOf(subCategories), (r: Row<SubCategory>) => r.value.categoryId == cid), SubCategoryOrderFirst)
  }

  /** `useSubCategoriesByProject(projectId)`: the project's SubCategories in key order. */
  function SubCategoriesOfProject(subCategories: Table<SubCategory>, projectId: Option<Id>): seq<Row<SubCategory>> {
    match projectId
    case None => []
    case Some(pid) => Filter(RowsOf(subCategories), (r: Row<SubCategory>) => r.value.projectId == pid)
  }

  /** The project list holds exactly the stored projects whose `archivedAt` is null. */
  lemma ActiveProjectsExact(projects: Table<Project>)
    requires projects.Valid()
    ensures forall r :: r in ActiveProjects(projects) <==>
      r.id in projects.rows && projects.rows[r.id] == r.value && r.value.archivedAt == None
  {
    RowsOfExact(projects);
    assert TotalPreorder(OlderProjectFirst);
    SortedMembers(Filter(RowsOf(projects), (r: Row<Project>) => r.value.archivedAt.None?), OlderProjectFirst);
  }

  /** Projects created at the same instant are listed in key order. */
  lemma ActiveProjectsTiesInKeyOrder(projects: Table<Project>)
    ensures var r := ActiveProjects(projects);
      forall i, j :: 0 <= i < j < |r| && r[i].value.createdAt == r[j].value.createdAt ==> r[i].id < r[j].id
  {
    var active := (r: Row<Project>) => r.value.archivedAt.None?;
    SelectKeepsOrder(RowsOf(projects), active, KeyBefore);
    var kept := Filter(RowsOf(projects), active);
    StrictlyOrderedTies(kept, OlderProjectFirst, KeyBefore);
    assert TotalPreorder(OlderProjectFirst);
    SortByKeepsTieOrder(kept, OlderProjectFirst, KeyBefore);
    TiesInKeyOrder(ActiveProjects(projects));
  }

  lemma TiesInKeyOrder(r: seq<Row<Project>>)
    requires TieOrdered(r, OlderProjectFirst, KeyBefore)
    ensures forall i, j :: 0 <= i < j < |r| && r[i].value.createdAt == r[j].value.createdAt ==> r[i].id < r[j].id
  {
    forall i, j | 0 <= i < j < |r| && r[i].value.createdAt == r[j].value.createdAt
      ensures r[i].id < r[j].id
    {
      assert OlderProjectFirst(r[i], r[j]) && OlderProjectFirst(r[j], r[i]);
      assert KeyBefore(r[i], r[j]);
    }
  }

  /** The category list holds exactly the project's categories. */
  lemma CategoriesOfExact(categories: Table<Category>, projectId: Option<Id>)
    requires categories.Valid()
    ensures projectId == None ==> CategoriesOf(categories, projectId) == []
    ensures projectId.Some? ==> forall r :: r in CategoriesOf(categories, projectId) <==>
      r.id in categories.rows && categories.rows[r.id] == r.value && r.value.projectId == projectId.value
  {
    if projectId.Some? {
      RowsOfExact(categories);
      assert TotalPreorder(CategoryOrderFirst);
      SortedMembers(Filter(RowsOf(categories), (r: Row<Category>) => r.value.projectId == projectId.value), CategoryOrderFirst);
    }
  }

  /** The SubCategory list holds exactly the category's SubCategories. */
  lemma SubCategoriesOfExact(subCategories: Table<SubCategory>, categoryId: Option<Id>)
    requires subCategories.Valid()
    ensures categoryId == None ==> SubCategoriesOf(subCategories, categoryId) == []
    ensures categoryId.Some? ==> forall r :: r in SubCategoriesOf(subCategories, categoryId) <==>
      r.id in subCategories.rows && subCategories.rows[r.id] == r.value && r.value.categoryId == categoryId.value
  {
    if categoryId.Some? {
      RowsOfExact(subCategories);
      assert TotalPreorder(SubCategoryOrderFirst);
      SortedMembers(Filter(RowsOf(subCategories), (r: Row<SubCategory>) => r.value.categoryId == categoryId.value), SubCategoryOrderFirst);
    }
  }

  /** The by-project list holds exactly the project's SubCategories. */
  lemma SubCategoriesOfProjectExact(subCategories: Table<SubCategory>, projectId: Option<Id>)
    requires subCategories.Valid()
    ensures projectId == None ==> SubCategoriesOfProject(subCategories, projectId) == []
    ensures projectId.Some? ==> forall r :: r in SubCategoriesOfProject(subCategories, projectId) <==>
      r.id in subCategories.rows && subCategories.rows[r.id] == r.value && r.value.projectId == projectId.value
  {
    RowsOfExact(subCategories);
  }
}
