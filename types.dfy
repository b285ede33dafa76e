/** The persisted entities of the board: Project → Category ("EPIC") →
    SubCategory ("TASK") → Task ("ACTION"), and the TaskHistory audit rows.
    Ids are store-assigned naturals; timestamps are milliseconds. An
    `archivedAt` of `None` is an active row (the stored value is null or the
    key is absent); `Some(t)` is the archival time. */
module Types {
  import opened Common

  type Id = nat
  /** A point in time, in milliseconds. */
  type Time = int

  datatype ProjectStatus = Active | OnHold | Completed | Cancelled
  /** The status of a Category or SubCategory. */
  datatype GroupStatus = Active | Completed
  datatype TaskStatus = Todo | InProgress | Done
  datatype TaskPriority = Low | Medium | High | Critical

  datatype Project = Project(
    name: string,
    description: string,
    status: ProjectStatus,
    color: string,
    archivedAt: Option<Time>,
    createdAt: Time,
    updatedAt: Time)

  /** `status` is `None` when the row was written without one (seeded rows,
      categories created from the tree view). */
  datatype Category = Category(
    projectId: Id,
    name: string,
    order: int,
    status: Option<GroupStatus>,
    archivedAt: Option<Time>,
    createdAt: Time,
    updatedAt: Time)

  datatype SubCategory = SubCategory(
    categoryId: Id,
    projectId: Id,
    name: string,
    order: int,
    status: Option<GroupStatus>,
    archivedAt: Option<Time>,
    createdAt: Time,
    updatedAt: Time)

  datatype ChecklistItem = ChecklistItem(id: string, text: string, done: bool)

  /** `dueDate` is an ISO date (`YYYY-MM-DD`) or the empty string. */
  datatype Task = Task(
    subCategoryId: Id,
    categoryId: Id,
    projectId: Id,
    title: string,
    description: string,
    status: TaskStatus,
    priority: TaskPriority,
    assignee: string,
    dueDate: string,
    progress: int,
    checklist: seq<ChecklistItem>,
    archivedAt: Option<Time>,
    createdAt: Time,
    updatedAt: Time)

  datatype TaskHistory = TaskHistory(
    taskId: Id,
    field: string,
    oldValue: string,
    newValue: string,
    changedAt: Time)

  /** A stored record together with its primary key, as `toArray()` returns it. */
  datatype Row<T> = Row(id: Id, value: T)
}
