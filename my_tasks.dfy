/** The "my tasks" page: the list of all tasks narrowed by status, priority
    and due date, then sorted by due date (empty last), priority rank,
    newest creation or highest progress. Dates are ISO `YYYY-MM-DD` strings
    compared as JavaScript compares strings; `today` and the date a week
    ahead are inputs. */
module MyTasks {
  import opened Common
  import opened Types
  import opened Text

  /** `dueDateFilter`: `''` (or any value not named here) keeps every task. */
  datatype DueFilter = AnyDue | Overdue | DueToday | DueThisWeek

  /** `sortBy`: `'dueDate'` and any value not named here sort by due date. */
  datatype TaskSort = ByPriority | ByProgress | ByCreatedAt | ByDueDate

  /** `priorityOrder`: CRITICAL 0, HIGH 1, MEDIUM 2, LOW 3. */
  function PriorityOrder(p: TaskPriority): nat {
    match p
    case Critical => 0
    case High => 1
    case Medium => 2
    case Low => 3
  }

  /** The due-date filter's test. `week` does not ask for a non-empty date:
      the empty string is below any non-empty `today`. */
  predicate DueKept(t: Task, due: DueFilter, today: string, nextWeek: string) {
    match due
    case AnyDue => true
    case Overdue => t.dueDate != "" && LexLt(t.dueDate, today)
    case DueToday => t.dueDate == today
    case DueThisWeek => LexLe(today, t.dueDate) && LexLe(t.dueDate, nextWeek)
  }

  /** What the three filters together keep. */
  predicate Kept(t: Task, status: Option<TaskStatus>, priority: Option<TaskPriority>,
                 due: DueFilter, today: string, nextWeek: string) {
    && (status.None? || t.status == status.value)
    && (priority.None? || t.priority == priority.value)
    && DueKept(t, due, today, nextWeek)
  }

  /** `compare(a, b) <= 0` for the page's comparator: `a` may stay before `b`. */
  predicate SortLe(sort: TaskSort, a: Row<Task>, b: Row<Task>) {
    match sort
    case ByPriority => PriorityOrder(a.value.priority) <= PriorityOrder(b.value.priority)
    case ByProgress => b.value.progress <= a.value.progress
    case ByCreatedAt => b.value.createdAt <= a.value.createdAt
    case ByDueDate =>
      if a.value.dueDate == "" then b.value.dueDate == ""
      else b.value.dueDate == "" || LexLe(a.value.dueDate, b.value.dueDate)
  }

  function Comparator(sort: TaskSort): (Row<Task>, Row<Task>) -> bool {
    (a: Row<Task>, b: Row<Task>) => SortLe(sort, a, b)
  }

  /** Each of the four comparators orders consistently, so the sort has a
      well-defined result. */
  lemma ComparatorTotal(sort: TaskSort)
    ensures TotalPreorder(Comparator(sort))
  {
    var le := Comparator(sort);
    forall a, b ensures le(a, b) || le(b, a) {
      LexLeTotal(a.value.dueDate, b.value.dueDate);
    }
    forall a, b, c | le(a, b) && le(b, c) ensures le(a, c) {
      if a.value.dueDate != "" && b.value.dueDate != "" && c.value.dueDate != ""
         && LexLe(a.value.dueDate, b.value.dueDate) && LexLe(b.value.dueDate, c.value.dueDate) {
        LexLeTransitive(a.value.dueDate, b.value.dueDate, c.value.dueDate);
      }
    }
  }

  /** The `filtered` memo: a copy of the task list narrowed by the three
      filters (one pass with their conjunction keeps the same tasks in the
      same order as three passes), then sorted. Exactly the kept tasks remain, each as
      often as in the input, in the chosen order. */
  function Filtered(tasks: seq<Row<Task>>, status: Option<TaskStatus>, priority: Option<TaskPriority>,
                    due: DueFilter, sort: TaskSort, today: string, nextWeek: string): (r: seq<Row<Task>>)
    ensures forall x :: x in r <==> x in tasks && Kept(x.value, status, priority, due, today, nextWeek)
    ensures forall x :: multiset(r)[x] == if Kept(x.value, status, priority, due, today, nextWeek) then multiset(tasks)[x] else 0
    ensures multiset(r) <= multiset(tasks)
    ensures Sorted(r, Comparator(sort))
  {
    var kept := Filter(tasks, (t: Row<Task>) => Kept(t.value, status, priority, due, today, nextWeek));
    ComparatorTotal(sort);
    SortedMembers(kept, Comparator(sort));
    SortBy(kept, Comparator(sort))
  }

  /** What each sort promises of the list it returns: by due date the dated
      tasks ascend and every undated one comes after all of them; by
      priority the rank never decreases; by progress it never increases;
      by creation the newest come first. */
  lemma FilteredOrder(tasks: seq<Row<Task>>, status: Option<TaskStatus>, priority: Option<TaskPriority>,
                      due: DueFilter, sort: TaskSort, today: string, nextWeek: string)
    ensures var r := Filtered(tasks, status, priority, due, sort, today, nextWeek);
      forall i, j :: 0 <= i < j < |r| ==>
        && (sort == ByDueDate && r[i].value.dueDate == "" ==> r[j].value.dueDate == "")
        && (sort == ByDueDate && r[j].value.dueDate != "" ==> LexLe(r[i].value.dueDate, r[j].value.dueDate))
        && (sort == ByPriority ==> PriorityOrder(r[i].value.priority) <= PriorityOrder(r[j].value.priority))
        && (sort == ByProgress ==> r[j].value.progress <= r[i].value.progress)
        && (sort == ByCreatedAt ==> r[j].value.createdAt <= r[i].value.createdAt)
  {
    var r := Filtered(tasks, status, priority, due, sort, today, nextWeek);
    SortedOrder(r, sort);
  }

  /** The same promises for any list sorted by the chosen comparator. */
  lemma SortedOrder(r: seq<Row<Task>>, sort: TaskSort)
    requires Sorted(r, Comparator(sort))
    ensures forall i, j :: 0 <= i < j < |r| ==>
        && (sort == ByDueDate && r[i].value.dueDate == "" ==> r[j].value.dueDate == "")
        && (sort == ByDueDate && r[j].value.dueDate != "" ==> LexLe(r[i].value.dueDate, r[j].value.dueDate))
        && (sort == ByPriority ==> PriorityOrder(r[i].value.priority) <= PriorityOrder(r[j].value.priority))
        && (sort == ByProgress ==> r[j].value.progress <= r[i].value.progress)
        && (sort == ByCreatedAt ==> r[j].value.createdAt <= r[i].value.createdAt)
  {
    forall i, j | 0 <= i < j < |r|
      ensures sort == ByDueDate && r[i].value.dueDate == "" ==> r[j].value.dueDate == ""
      ensures sort == ByDueDate && r[j].value.dueDate != "" ==> LexLe(r[i].value.dueDate, r[j].value.dueDate)
      ensures sort == ByPriority ==> PriorityOrder(r[i].value.priority) <= PriorityOrder(r[j].value.priority)
      ensures sort == ByProgress ==> r[j].value.progress <= r[i].value.progress
      ensures sort == ByCreatedAt ==> r[j].value.createdAt <= r[i].value.createdAt
    {
      assert Comparator(sort)(r[i], r[j]);
    }
  }
}
