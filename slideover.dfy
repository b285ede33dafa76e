/** The task slide-over: the checklist edits (`toggle`, `remove`, `add`,
    `doneCount`), the save guard of the edit form, and the checklist write
    made from the view mode. The edits build new lists; the list is then
    written to the task with `updateTask`. */
module Slideover {
  import opened Common
  import opened Types
  import opened Text
  import opened Db
  import opened Tasks

  /** `toggle(id)`: the same items in the same order, with `done` flipped on
      exactly those whose id is `id`. */
  function Toggle(items: seq<ChecklistItem>, id: string): (r: seq<ChecklistItem>)
    ensures |r| == |items|
    ensures forall i :: 0 <= i < |items| ==> r[i].id == items[i].id && r[i].text == items[i].text
    ensures forall i :: 0 <= i < |items| ==> (r[i].done != items[i].done <==> items[i].id == id)
  {
    seq(|items|, i requires 0 <= i < |items| =>
      if items[i].id == id then items[i].(done := !items[i].done) else items[i])
  }

  /** Toggling the same id twice gives back the list. */
  lemma ToggleTwice(items: seq<ChecklistItem>, id: string)
    ensures Toggle(Toggle(items, id), id) == items
  {
    var r := Toggle(Toggle(items, id), id);
    assert forall i :: 0 <= i < |items| ==> r[i] == items[i];
  }

  function Keep(id: string): ChecklistItem -> bool {
    (x: ChecklistItem) => x.id != id
  }

  /** `remove(id)`: the items whose id is not `id`, in their order. */
  function Remove(items: seq<ChecklistItem>, id: string): (r: seq<ChecklistItem>)
    ensures forall x :: x in r <==> x in items && x.id != id
    ensures |r| <= |items|
  {
    Filter(items, Keep(id))
  }

  /** `remove` keeps the surviving items in their order: it works piecewise
      on a concatenation, and leaves a list without the id unchanged. */
  lemma RemoveAppend(a: seq<ChecklistItem>, b: seq<ChecklistItem>, id: string)
    ensures Remove(a + b, id) == Remove(a, id) + Remove(b, id)
  {
    FilterAppend(a, b, Keep(id));
  }

  lemma RemoveAbsent(items: seq<ChecklistItem>, id: string)
    requires forall i :: 0 <= i < |items| ==> items[i].id != id
    ensures Remove(items, id) == items
  {
    FilterKeepsAll(items, Keep(id));
  }

  /** `add()` with the input text `newText`; `stamp` is `Date.now().toString()`. */
  function Add(items: seq<ChecklistItem>, newText: string, stamp: string): seq<ChecklistItem> {
    if Trim(newText) == [] then items
    else items + [ChecklistItem(stamp, Trim(newText), false)]
  }

  /** Blank input changes nothing. */
  lemma AddBlank(items: seq<ChecklistItem>, newText: string, stamp: string)
    requires forall i :: 0 <= i < |newText| ==> IsSpace(newText[i])
    ensures Add(items, newText, stamp) == items
  {
    TrimEmptyIffBlank(newText);
  }

  /** Otherwise exactly one new, not-done item holding the trimmed,
      non-empty text is appended after the unchanged list. */
  lemma AddAppends(items: seq<ChecklistItem>, newText: string, stamp: string)
    requires exists i :: 0 <= i < |newText| && !IsSpace(newText[i])
    ensures |Add(items, newText, stamp)| == |items| + 1
    ensures Add(items, newText, stamp)[..|items|] == items
    ensures Add(items, newText, stamp)[|items|] == ChecklistItem(stamp, Trim(newText), false)
    ensures Trim(newText) != []
  {
    TrimEmptyIffBlank(newText);
    var r := Add(items, newText, stamp);
    assert r == items + [ChecklistItem(stamp, Trim(newText), false)];
    assert r[..|items|] == items;
  }

  /** `doneCount`: how many items are done. */
  function DoneCount(items: seq<ChecklistItem>): (n: nat)
    ensures n <= |items|
    ensures n == |items| <==> forall i :: 0 <= i < |items| ==> items[i].done
  {
    if items == [] then 0
    else
      assert items == [items[0]] + items[1..];
      (if items[0].done then 1 else 0) + DoneCount(items[1..])
  }

  lemma {:induction false} DoneCountAppend(a: seq<ChecklistItem>, b: seq<ChecklistItem>)
    ensures DoneCount(a + b) == DoneCount(a) + DoneCount(b)
  {
    if a != [] {
      DoneCountAppend(a[1..], b);
      assert (a + b)[1..] == a[1..] + b;
    } else {
      assert a + b == b;
    }
  }

  /** Adding an item never changes the done count; the list grows by at most one. */
  lemma AddKeepsDoneCount(items: seq<ChecklistItem>, newText: string, stamp: string)
    ensures DoneCount(Add(items, newText, stamp)) == DoneCount(items)
    ensures |items| <= |Add(items, newText, stamp)| <= |items| + 1
  {
    if Trim(newText) != [] {
      DoneCountAppend(items, [ChecklistItem(stamp, Trim(newText), false)]);
    }
  }

  /** The `title` a form holds, if it names one; of several, the last, as
      spreading the form over the task keeps the last. */
  function TitleOf(form: seq<Field>): Option<string> {
    if form == [] then None
    else if TitleOf(form[1..]).Some? then TitleOf(form[1..])
    else match form[0]
      case Title(t) => Some(t)
      case _ => None
  }

  /** The title the guard reads is the title `updateTask` stores. */
  lemma {:induction false} PatchedTitle(t: Task, form: seq<Field>, now: Time)
    decreases |form|
    ensures Patched(t, form, now).title == if TitleOf(form).Some? then TitleOf(form).value else t.title
  {
    if form != [] {
      PatchedTitle(Set(t, form[0]), form[1..], now);
    }
  }

  /** `handleSave`'s guard `!taskId || !form.title`, negated: a task is
      shown (JavaScript's `!` also rejects the id 0) and the title is
      present and not empty. */
  predicate MaySave(taskId: Option<Id>, form: seq<Field>) {
    && taskId.Some? && taskId.value != 0
    && TitleOf(form).Some? && TitleOf(form).value != ""
  }

  /** `handleSave()`: writes nothing when the guard fails, otherwise runs
      `updateTask(taskId, form)`. */
  method HandleSave(db: Database, taskId: Option<Id>, form: seq<Field>, ser: Json -> string, now: Time)
    requires db.Valid()
    modifies db
    ensures db.Valid()
    ensures !MaySave(taskId, form) ==> db.Snapshot() == old(db.Snapshot())
    ensures MaySave(taskId, form) ==>
      var id := taskId.value;
      && db.projects == old(db.projects) && db.categories == old(db.categories)
      && db.subCategories == old(db.subCategories)
      && (id !in old(db.tasks.rows) ==> db.tasks == old(db.tasks) && db.taskHistory == old(db.taskHistory))
      && (id in old(db.tasks.rows) ==>
            && db.tasks == old(db.tasks).Replace(id, Patched(old(db.tasks.rows[id]), form, now))
            && db.taskHistory == AddAll(old(db.taskHistory), HistoryRows(id, old(db.tasks.rows[id]), form, ser, now)))
  {
    if !MaySave(taskId, form) {
      return;
    }
    UpdateTask(db, taskId.value, form, ser, now);
  }

  /** A checklist-only patch changes the checklist and `updatedAt` and
      nothing else, and records at most one history row, under `checklist`. */
  lemma ChecklistPatch(id: Id, t: Task, items: seq<ChecklistItem>, ser: Json -> string, now: Time)
    ensures Patched(t, [Checklist(items)], now) == t.(checklist := items, updatedAt := now)
    ensures |HistoryRows(id, t, [Checklist(items)], ser, now)| <= 1
    ensures forall h :: h in HistoryRows(id, t, [Checklist(items)], ser, now) ==>
      h.field == "checklist" && h.taskId == id && h.changedAt == now
    ensures Injective(ser) ==> (HistoryRows(id, t, [Checklist(items)], ser, now) == [] <==> t.checklist == items)
  {
    var patch := [Checklist(items)];
    assert ApplyPatch(t, patch) == ApplyPatch(t.(checklist := items), []);
    assert patch[..0] == [];
    if Injective(ser) {
      ChangedIffDiffers(t, Checklist(items), ser);
    }
  }

  /** The checklist's `onChange` in view mode: `updateTask(task.id, { checklist: items })`. */
  method ChecklistChanged(db: Database, id: Id, items: seq<ChecklistItem>, ser: Json -> string, now: Time)
    requires db.Valid()
    modifies db
    ensures db.Valid()
    ensures db.projects == old(db.projects) && db.categories == old(db.categories)
    ensures db.subCategories == old(db.subCategories)
    ensures id !in old(db.tasks.rows) ==> db.tasks == old(db.tasks) && db.taskHistory == old(db.taskHistory)
    ensures id in old(db.tasks.rows) ==>
      && db.tasks == old(db.tasks).Replace(id, old(db.tasks.rows[id]).(checklist := items, updatedAt := now))
      && db.taskHistory == AddAll(old(db.taskHistory), HistoryRows(id, old(db.tasks.rows[id]), [Checklist(items)], ser, now))
  {
    if id in db.tasks.rows {
      ChecklistPatch(id, db.tasks.rows[id], items, ser, now);
    }
    UpdateTask(db, id, [Checklist(items)], ser, now);
  }
}
