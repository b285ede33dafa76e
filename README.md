# Project task board: persistence core

This project models the core of a single-user project/task board, whose data lives in
five browser database tables:

- projects;
- categories (shown as "EPIC");
- SubCategories (shown as "TASK");
- tasks (shown as "ACTION");
- the task-history audit log.

The model covers:

- the hooks that create, update, archive, restore, cascade-delete, export and import rows;
- the pure list rules the pages build on those rows (archive filtering, "my tasks" filtering
  and sorting, the upcoming-task selection, the checklist edits);
- the UI store's state machine and the progress bar's clamp and colour bands.

The store is modelled as five `Table<T>` values. Each holds a map from key to row and the
next auto-increment key. They live in a `Database` class whose hook methods modify it.
Every method's postcondition ties each table to a specification function of the old store:

- `Cascade` for the deletes;
- `Restored` for the restore;
- `Overwritten` and `Merged` for the import;
- `Patched` and `HistoryRows` for the task update.

Lemmas then prove what the code promises about those functions:

- nothing of a deleted subtree remains, and the store stays referentially consistent;
- restore touches exactly the rows inside the two-second window;
- merge import keeps every existing row and re-links every copied reference;
- one history row is written per changed field;
- and so on.

Modules:

- `Types`: the entities.
- `Common`: Option, filter, a stable insertion sort, counting.
- `Text`: `trim`, `includes`, and string `<=` by code point (JavaScript compares UTF-16
  code units; the two orders agree on Basic Multilingual Plane text).
- `Db`: tables, the store, the seed.
- `Groups`: project, category and SubCategory hooks.
- `Tasks`: task hooks and history.
- `Cascade`: the cascading deletes.
- `Archive`: the archive listing, restore and permanent delete.
- `Transfer`: backup export and import.
- `ArchivePage`, `MyTasks`, `Upcoming`, `Slideover`: the page logic.
- `Ui`: the UI store.
- `Progress`: the progress bar.

Parameters stand in for things the model cannot compute:

- Clock readings are integer milliseconds (`now`).
- `JSON.stringify` is a parameter `ser: Json -> string`. Where history must be exactly "the
  fields whose value changed", `ser` is assumed injective.
- `toLowerCase` is a parameter `fold`.
- `localeCompare` on names is a parameter `nameLe`, assumed to be a total preorder.
- ISO date strings (`dueDate`, `today`) are compared by code point. For `YYYY-MM-DD`
  strings this is the order `localeCompare` gives.

## Model

| member | source | states |
|---|---|---|
| Db.EmptyStore | src/db/database.ts:13-19 | the store with five empty tables is well-formed and has no dangling reference |
| Db.Database.constructor | src/db/database.ts:11-23 | a new database holds five empty, well-formed tables |
| Db.AddFresh | src/db/database.ts:14-18 | `add` stores the row under a key not already in the table, grows the table by exactly one key, and keeps the table well-formed |
| Db.AddAllContents | src/db/database.ts:84-138 | `bulkAdd` keeps every existing row and puts the i-th new value under key `next + i`, adding exactly `|vs|` keys |
| Db.RowsBelow | src/db/database.ts:13-19 | a table walk yields each stored row once, in increasing key order, and nothing that is not stored |
| Db.RowsOfExact | src/hooks/useDataTransfer.ts:6-12 | `toArray()` holds exactly the stored (key, row) pairs, in increasing key order |
| Db.KeysBelow | src/hooks/useProjects.ts:26-31 | the ids collected by a `where(...).toArray().map(id)` read are exactly the stored keys whose row matches |
| Db.SeedCategories | src/db/database.ts:41-55 | the seed writes two categories, with order 0 and 1, under the seeded project, stamped with one shared time |
| Db.SeedSubCategories | src/db/database.ts:57-82 | three SubCategories: the first under category 1, the other two under category 2, all under the seeded project, one shared time |
| Db.SeedTasks | src/db/database.ts:84-138 | three tasks: one under each seeded SubCategory, carrying that SubCategory's category and the seeded project, one shared time |
| Db.SeedIsShaped | src/db/database.ts:57-137 | each seeded SubCategory's project is its category's project, and each seeded task's category and project are those of its SubCategory, with the ids the adds hand out |
| Db.SeedIntoCounts | src/db/database.ts:32-138 | seeding adds exactly 1 project, 2 categories, 3 SubCategories and 3 tasks, leaves history alone and keeps every existing row |
| Db.SeedIntoConsistent | src/db/database.ts:57-137 | seeding a consistent store leaves it consistent: every seeded reference resolves |
| Db.SeedCategoriesLinked | src/db/database.ts:41-55 | the seeded categories reference the seeded project |
| Db.SeedSubCategoriesLinked | src/db/database.ts:57-82 | the seeded SubCategories reference a seeded category and carry its project |
| Db.SeedTasksLinked | src/db/database.ts:84-138 | the seeded tasks reference a seeded SubCategory and carry its category and project |
| Db.SeedDatabase | src/db/database.ts:26-139 | with at least one project the store is untouched; otherwise the project, categories, SubCategories and tasks are appended with the ids the earlier adds returned, and history is untouched |
| Db.WriteSeed | src/db/database.ts:30-138 | the seed's writes, in order, with one timestamp |
| Db.SeedHierarchy | src/db/database.ts:32-82 | the project, category and SubCategory adds return consecutive fresh ids, and each later row uses the ids returned before it |
| Db.BulkAdd | src/db/database.ts:84-138 | `tasks.bulkAdd` appends the tasks under fresh keys and leaves the other tables alone |
| Groups.PatchesSettle | src/hooks/useProjects.ts:16-18 | an update keeps `createdAt`, sets `updatedAt = now`, and repeating the same update changes nothing more, for projects, categories and SubCategories alike |
| Groups.EmptyPatchTouchesOnly | src/hooks/useCategories.ts:18-20 | an empty patch only refreshes `updatedAt` |
| Groups.CreateProject | src/hooks/useProjects.ts:11-14 | the project is stored under a fresh key with `archivedAt` null and `createdAt = updatedAt = now`; no other table changes |
| Groups.UpdateProject | src/hooks/useProjects.ts:16-18 | an existing project becomes the patch merged over it with `updatedAt = now`; a missing id changes nothing; other tables are unchanged |
| Groups.ArchiveProject | src/hooks/useProjects.ts:20-22 | only that project changes: `archivedAt` takes the first clock reading and `updatedAt` the second (the two may differ); nothing is cascaded to its children |
| Groups.CreateCategory | src/hooks/useCategories.ts:13-16 | the category is stored under a fresh key with `createdAt = updatedAt = now`; no other table changes |
| Groups.UpdateCategory | src/hooks/useCategories.ts:18-20 | the patch is merged and `updatedAt` refreshed on that row only; a missing id changes nothing |
| Groups.CreateSubCategory | src/hooks/useSubCategories.ts:13-16 | the SubCategory is stored under a fresh key with `createdAt = updatedAt = now`; no other table changes |
| Groups.UpdateSubCategory | src/hooks/useSubCategories.ts:18-20 | the patch is merged and `updatedAt` refreshed on that row only; a missing id changes nothing |
| Groups.ActiveProjects | src/hooks/useProjects.ts:6-9 | the project list is ordered by `createdAt` |
| Groups.ActiveProjectsTiesInKeyOrder | src/hooks/useProjects.ts:7 | projects with the same `createdAt` come in key order |
| Groups.ActiveProjectsExact | src/hooks/useProjects.ts:6-9 | the project list holds exactly the stored projects whose `archivedAt` is null |
| Groups.CategoriesOf | src/hooks/useCategories.ts:6-11 | the category list is ordered by `order` |
| Groups.CategoriesOfExact | src/hooks/useCategories.ts:6-11 | a null project id gives the empty list; otherwise exactly the stored categories of that project |
| Groups.SubCategoriesOf | src/hooks/useSubCategories.ts:6-11 | the SubCategory list is ordered by `order` |
| Groups.SubCategoriesOfExact | src/hooks/useSubCategories.ts:6-11 | a null category id gives the empty list; otherwise exactly the stored SubCategories of that category |
| Groups.SubCategoriesOfProjectExact | src/hooks/useSubCategories.ts:38-45 | a null project id gives the empty list; otherwise exactly the stored SubCategories with that `projectId` |
| Tasks.ApplyPatchFields | src/hooks/useTasks.ts:58 | after spreading a patch with distinct keys over a task, every patched key holds the patch's value, every other key keeps its value, and `createdAt` is kept |
| Tasks.PatchedFields | src/hooks/useTasks.ts:58 | the updated task has `updatedAt = now`, the old `createdAt`, the patch's value under every patched key, and the old value under every other key |
| Tasks.HistoryRows | src/hooks/useTasks.ts:60-73 | at most one history row per patch entry; each names the task and `now` and records two different serialised values |
| Tasks.HistoryRowsExact | src/hooks/useTasks.ts:60-73 | there is a history row for every patch entry other than `updatedAt` whose serialised value changed, and no other row |
| Tasks.HistoryOnePerKey | src/hooks/useTasks.ts:60-73 | a patch with distinct keys yields history rows with distinct field names |
| Tasks.UnchangedPatchNoHistory | src/hooks/useTasks.ts:60-73 | a patch equal to the current values writes no history |
| Tasks.KeyNamedName | src/hooks/useTasks.ts:67 | a history row's field name determines the key it was written for |
| Tasks.NamesDiffer | src/hooks/useTasks.ts:67 | different keys are recorded under different field names |
| Tasks.NamesInjective | src/types/index.ts:1-93 | the status and priority string literals are all distinct |
| Tasks.ChecklistJsonInjective | src/hooks/useTasks.ts:64 | two checklists with the same JSON value are equal |
| Tasks.ValueJsonInjective | src/hooks/useTasks.ts:64 | two entries under one key with the same JSON value are equal |
| Tasks.ChangedIffDiffers | src/hooks/useTasks.ts:61-64 | with an injective serialiser, an entry is recorded iff its key is not `updatedAt` and its value differs from the current one |
| Tasks.UpdateTask | src/hooks/useTasks.ts:50-75 | a missing id writes nothing; otherwise the task is replaced by the patched task and exactly the history rows of the changed fields are appended; projects, categories and SubCategories are unchanged |
| Tasks.WriteHistory | src/hooks/useTasks.ts:60-73 | the history loop appends exactly `HistoryRows`, in patch order, under fresh keys |
| Tasks.CreateTask | src/hooks/useTasks.ts:45-48 | the task is stored under a fresh key, returned, with `createdAt = updatedAt = now`; no other table changes |
| Tasks.TasksOfExact | src/hooks/useTasks.ts:5-13 | a null SubCategory id gives the empty list; otherwise exactly the stored tasks with that `subCategoryId` |
| Tasks.Reversed | src/hooks/useTasks.ts:38 | `reverse()` puts the i-th row from the end at position i, so it keeps the same rows as many times each |
| Tasks.HistoryOfExact | src/hooks/useTasks.ts:35-42 | a null task id gives the empty list; otherwise exactly the stored history rows of that task |
| Tasks.HistoryOfNewestFirst | src/hooks/useTasks.ts:35-42 | the task history is ordered newest `changedAt` first |
| Tasks.HistoryOfTiesNewestKeyFirst | src/hooks/useTasks.ts:38 | among rows with the same `changedAt`, the one with the higher key comes first: the reversed walk orders them so and the stable sort keeps it |
| Tasks.AllTasks | src/hooks/useTasks.ts:24-26 | all tasks come in `createdAt` order |
| Tasks.AllTasksTiesInKeyOrder | src/hooks/useTasks.ts:25 | tasks with the same `createdAt` come in key order, as the index walk yields them |
| Tasks.AllTasksExact | src/hooks/useTasks.ts:24-26 | the list holds every stored task, archived ones included, and nothing else |
| Cascade.IdsAreKeys | src/hooks/useProjects.ts:26-31 | the ids read before the transaction are exactly the rows the cascade deletes from each table |
| Cascade.TaskKeysAreSubtree | src/hooks/useArchive.ts:131-136 | on a consistent store, the tasks matched by the index lookup are exactly the tasks inside the deleted subtree |
| Cascade.SubCategoryKeysAreSubtree | src/hooks/useArchive.ts:129-137 | on a consistent store, the SubCategories matched by the index lookup are exactly those inside the deleted subtree |
| Cascade.CascadeRemovesSubtree | src/hooks/useArchive.ts:125-168 | after a cascade, a row of any of the five tables remains iff it was there and is not in the subtree; a history row remains iff its task is outside the subtree |
| Cascade.CascadeKeepsValues | src/hooks/useProjects.ts:33-41 | every row that survives a cascade is unchanged |
| Cascade.CascadeConsistent | src/hooks/useProjects.ts:24-42 | a cascade on a consistent store leaves no dangling reference |
| Cascade.WithoutHistoryStep | src/hooks/useProjects.ts:34-36 | deleting one more task's history on top of earlier deletions equals deleting the history of the enlarged set |
| Cascade.DeleteHistory | src/hooks/useProjects.ts:34-36 | the per-task loop removes exactly the history rows of the listed tasks |
| Cascade.DeleteProject | src/hooks/useProjects.ts:24-42 | the five tables become the project cascade of the old store: history, tasks, SubCategories and categories of the project, then the project itself |
| Cascade.DeleteCategory | src/hooks/useCategories.ts:22-36 | the five tables become the category cascade: the history and tasks with that `categoryId`, its SubCategories and the category; the project is untouched |
| Cascade.DeleteSubCategory | src/hooks/useSubCategories.ts:22-33 | the five tables become the SubCategory cascade: its tasks' history, its tasks and the row |
| Cascade.DeleteTask | src/hooks/useTasks.ts:77-82 | the task's history rows and the task are removed; everything else is unchanged |
| Archive.ArchivedItems | src/hooks/useArchive.ts:82 | the archive listing is ordered newest `archivedAt` first |
| Archive.ProjectEntriesExact | src/hooks/useArchive.ts:31-41 | the project loop lists exactly the archived projects it walks, each with its own id as `projectId`, its name as `projectName`, and no parent time |
| Archive.CategoryEntriesExact | src/hooks/useArchive.ts:43-54 | the category loop lists exactly the archived categories it walks, with the parent project's `archivedAt` (null when the project is missing) |
| Archive.SubCategoryEntriesExact | src/hooks/useArchive.ts:56-67 | the SubCategory loop lists exactly the archived SubCategories it walks, with the parent category's `archivedAt` (null when missing) |
| Archive.TaskEntriesExact | src/hooks/useArchive.ts:69-80 | the task loop lists exactly the archived tasks it walks, titled by `title`, with the parent SubCategory's `archivedAt` (null when missing) |
| Archive.ProjectsListed | src/hooks/useArchive.ts:19 | the PROJECT items are exactly the listings of archived projects |
| Archive.CategoriesListed | src/hooks/useArchive.ts:20 | the EPIC items are exactly the listings of archived categories |
| Archive.SubCategoriesListed | src/hooks/useArchive.ts:21 | the TASK items are exactly the listings of archived SubCategories |
| Archive.TasksListed | src/hooks/useArchive.ts:22 | the ACTION items are exactly the listings of archived tasks |
| Archive.EntriesExact | src/hooks/useArchive.ts:18-80 | before sorting, an item is listed iff it describes a stored row with non-null `archivedAt` together with its direct parent's `archivedAt` |
| Archive.ArchivedItemsExact | src/hooks/useArchive.ts:16-83 | the listing holds exactly the archived rows of the four tables, each described as above |
| Archive.RestoreSubCategoriesStep | src/hooks/useArchive.ts:99 | restoring one more SubCategory after others equals restoring the enlarged set |
| Archive.RestoreTasksStep | src/hooks/useArchive.ts:103 | restoring one more task after others equals restoring the enlarged set |
| Archive.RestoreTasksOf | src/hooks/useArchive.ts:100-105 | the inner loop restores exactly the SubCategory's tasks archived within 2000 ms of the item |
| Archive.WindowedTasksOfSubCategory | src/hooks/useArchive.ts:113-118 | the tasks the loop restores are exactly the SubCategory's tasks inside the window |
| Archive.TasksUnderStep | src/hooks/useArchive.ts:97-107 | restoring the windowed tasks of one more SubCategory equals restoring those of the enlarged set |
| Archive.RestoreBranch | src/hooks/useArchive.ts:96-107 | the EPIC loop restores exactly the SubCategories in the window, and exactly the windowed tasks under those SubCategories |
| Archive.WindowedSubCategoriesOfCategory | src/hooks/useArchive.ts:96-98 | the SubCategories the EPIC loop restores are exactly the category's SubCategories inside the window |
| Archive.RestoreItem | src/hooks/useArchive.ts:87-123 | the five tables become `Restored(old store, item, now)` |
| Archive.RestoreTouchesLittle | src/hooks/useArchive.ts:87-123 | restore adds and removes no row, never touches history, and changes a task only by clearing `archivedAt` and setting `updatedAt`, so a task's status never changes |
| Archive.RestoreSingleRow | src/hooks/useArchive.ts:89-90 | a PROJECT or ACTION restore clears that row's `archivedAt`, sets its `updatedAt = now`, and changes no other row of any table |
| Archive.EpicRestoreScope | src/hooks/useArchive.ts:91-108 | an EPIC restore reactivates the category; a SubCategory changes iff it is the category's and within 2000 ms, and then becomes ACTIVE and unarchived; a task changes iff it and its SubCategory are both within the window under that category |
| Archive.SubCategoryRestoreScope | src/hooks/useArchive.ts:109-119 | a TASK restore reactivates the SubCategory and changes exactly its tasks within the window; projects, categories and other SubCategories are unchanged |
| Archive.RestoreClearsItem | src/hooks/useArchive.ts:87-123 | after restore, the item's own row (if stored) has `archivedAt` null |
| Archive.RestoreUnlists | src/hooks/useArchive.ts:16-123 | a restored item no longer appears in the archive listing |
| Archive.PermanentlyDelete | src/hooks/useArchive.ts:125-168 | the store becomes the cascade from the item's row, by the item's type |
| Archive.Completed | src/hooks/useArchive.ts:170-174 | a failing item at index `failAt` stops the loop there; otherwise every item is processed |
| Archive.BulkPermanentlyDelete | src/hooks/useArchive.ts:170-174 | the items are deleted one after another in list order, up to the first failing one |
| Archive.DeletedAllRemovesItems | src/hooks/useArchive.ts:170-174 | after a bulk delete on a consistent store, every deleted item's row is gone and no reference dangles |
| Transfer.ExportHoldsEverything | src/hooks/useDataTransfer.ts:5-22 | the export is tagged version `'1.0'` and each array holds exactly the rows of its table, ids included, archived ones too |
| Transfer.PutAllExact | src/hooks/useDataTransfer.ts:51-55 | a bulk add with ids into a cleared table succeeds iff the ids are distinct, and then the table holds exactly the given rows |
| Transfer.PutAllStaysFailed | src/hooks/useDataTransfer.ts:51-55 | once a bulk add has thrown, adding more rows does not undo the failure |
| Transfer.BulkPut | src/hooks/useDataTransfer.ts:51-55 | the add loop returns the table with the rows put under their ids, or the failure |
| Transfer.OverwriteExact | src/hooks/useDataTransfer.ts:44-55 | overwrite succeeds iff no backup array repeats an id, and then each table holds exactly its backup array under the original ids |
| Transfer.RowsOfDistinct | src/hooks/useDataTransfer.ts:6-12 | an exported table never repeats an id |
| Transfer.TableRoundTrip | src/hooks/useDataTransfer.ts:44-55 | clearing a table and bulk-adding another table's exported rows reproduces that table |
| Transfer.ExportOverwriteRoundTrip | src/hooks/useDataTransfer.ts:44-55 | importing an export in overwrite mode succeeds and reproduces all five tables of the exported store |
| Transfer.Values | src/hooks/useDataTransfer.ts:60-65 | stripping ids keeps every record's fields, in order |
| Transfer.IdMapExact | src/hooks/useDataTransfer.ts:60-65 | the old-to-new map sends each old id to the key under which its record was added |
| Transfer.RemapResolves | src/hooks/useDataTransfer.ts:73 | an old id the backup defines is rewritten to the new key of the row it named |
| Transfer.MergeProjects | src/hooks/useDataTransfer.ts:58-65 | the project loop appends every backup project under a fresh key and records old id → new key |
| Transfer.MergeCategories | src/hooks/useDataTransfer.ts:67-76 | the category loop appends every category with `projectId` rewritten through the project map (kept when unmapped) and records its own map |
| Transfer.MergeSubCategories | src/hooks/useDataTransfer.ts:78-88 | the SubCategory loop rewrites `projectId` and `categoryId` through the earlier maps and records its own map |
| Transfer.MergeTasks | src/hooks/useDataTransfer.ts:90-101 | the task loop rewrites `projectId`, `categoryId` and `subCategoryId` through the earlier maps and records its own map |
| Transfer.MergeHistory | src/hooks/useDataTransfer.ts:103-109 | the history loop drops ids and rewrites `taskId` through the task map |
| Transfer.OverwriteTables | src/hooks/useDataTransfer.ts:44-55 | the overwrite branch yields the overwritten store, or a failure when an array is missing or an id repeats |
| Transfer.MergeTables | src/hooks/useDataTransfer.ts:56-110 | the merge branch yields the merged store, or a failure when an array is missing |
| Transfer.ImportData | src/hooks/useDataTransfer.ts:35-112 | a missing version or projects array is refused before any write; otherwise the import commits the overwritten or merged store, or nothing at all when the transaction throws |
| Transfer.AddAllExtends | src/hooks/useDataTransfer.ts:60-109 | appending under fresh keys keeps every old row and puts the i-th new record under `next + i` |
| Transfer.MergeKeepsExisting | src/hooks/useDataTransfer.ts:56-110 | a merge keeps every pre-existing row unchanged and adds exactly one row per backup record in each table, with rewritten references |
| Transfer.MergedValid | src/hooks/useDataTransfer.ts:56-110 | the merged tables are well-formed |
| Transfer.CategoryLinkedAt | src/hooks/useDataTransfer.ts:73 | after a merge, every category's project exists |
| Transfer.SubCategoryLinkedAt | src/hooks/useDataTransfer.ts:84-85 | after a merge, every SubCategory's category exists and shares its project |
| Transfer.NewSubCategoryLinked | src/hooks/useDataTransfer.ts:84-85 | a copied SubCategory points at the copy of its category and carries that copy's project |
| Transfer.TaskLinkedAt | src/hooks/useDataTransfer.ts:96-98 | after a merge, every task's SubCategory exists and shares its category and project |
| Transfer.NewTaskLinked | src/hooks/useDataTransfer.ts:96-98 | a copied task points at the copy of its SubCategory and carries that copy's category and project |
| Transfer.HistoryLinkedAt | src/hooks/useDataTransfer.ts:107 | after a merge, every history row's task exists |
| Transfer.MergedCategoriesLinked | src/hooks/useDataTransfer.ts:67-76 | merging a self-contained backup keeps every category linked to a project |
| Transfer.MergedSubCategoriesLinked | src/hooks/useDataTransfer.ts:78-88 | merging a self-contained backup keeps every SubCategory linked to its category and project |
| Transfer.MergedTasksLinked | src/hooks/useDataTransfer.ts:90-101 | merging a self-contained backup keeps every task linked to its SubCategory, category and project |
| Transfer.MergedHistoryLinked | src/hooks/useDataTransfer.ts:103-109 | merging a self-contained backup keeps every history row linked to its task |
| Transfer.MergeConsistent | src/hooks/useDataTransfer.ts:56-110 | merging a self-contained backup into a consistent store leaves it consistent |
| Transfer.ByIdRows | src/hooks/useDataTransfer.ts:61-64 | the by-id view of a backup array holds every row of the array and nothing else |
| Transfer.ByIdOfRows | src/hooks/useDataTransfer.ts:6-12 | the by-id view of an exported table is the table itself |
| Transfer.ExportLinked | src/hooks/useDataTransfer.ts:5-22 | the export of a consistent store is self-contained |
| Transfer.ExportMergeConsistent | src/hooks/useDataTransfer.ts:56-110 | merging the export of one consistent store into another leaves no dangling reference |
| Text.TrimStart | src/pages/ArchivePage.tsx:31 | the leading white space is removed, and only that |
| Text.TrimEnd | src/pages/ArchivePage.tsx:31 | the trailing white space is removed, and only that |
| Text.TrimEmptyIffBlank | src/pages/ArchivePage.tsx:31 | `trim()` is empty iff every character is white space |
| Text.TrimEnds | src/features/tasks/TaskSlideover.tsx:43 | a non-empty trimmed text starts and ends with a character that is not white space |
| Text.LexLeTotal | src/pages/MyTasksPage.tsx:53 | any two strings are comparable by JavaScript string order |
| Text.LexLeTransitive | src/pages/MyTasksPage.tsx:53 | JavaScript string order is transitive |
| Text.LexLeAntisymmetric | src/pages/MyTasksPage.tsx:53 | two strings each at most the other are equal |
| ArchivePage.OrderTotal | src/pages/ArchivePage.tsx:38-42 | each of the three orders is a total preorder, given that the name comparison is one |
| ArchivePage.Filtered | src/pages/ArchivePage.tsx:28-45 | an item is shown iff it is listed and passes the search, type and project filters; each is shown exactly as often as listed; the result is in the chosen order |
| ArchivePage.UnfilteredShowsAll | src/pages/ArchivePage.tsx:31-36 | a blank search with no type or project filter shows every listed item, only reordered |
| ArchivePage.ArchiveView.constructor | src/pages/ArchivePage.tsx:14-23 | empty search, no filters, newest-first sort, no pending restore, delete-all disarmed |
| ArchivePage.ArchiveView.SetFilters | src/pages/ArchivePage.tsx:100-110 | the filter controls set the four filter fields |
| ArchivePage.ArchiveView.HandleRestore | src/pages/ArchivePage.tsx:47-54 | an item with an archived parent is only recorded for confirmation and the store is untouched; any other item is restored and the pending item is kept |
| ArchivePage.ArchiveView.RestoreOnlyThis | src/pages/ArchivePage.tsx:130-134 | the pending item is restored and the dialog cleared |
| ArchivePage.ArchiveView.CancelRestore | src/pages/ArchivePage.tsx:140 | the dialog is cleared without restoring anything |
| ArchivePage.ArchiveView.HandleDelete | src/pages/ArchivePage.tsx:56-59 | an unconfirmed delete changes nothing; a confirmed one runs the item's cascade |
| ArchivePage.ArchiveView.HandleDeleteAll | src/pages/ArchivePage.tsx:61-70 | the first click only arms; the second deletes the shown items in order and disarms unless a delete fails, which leaves it armed; on a consistent store every deleted item's row is gone and the store stays consistent |
| ArchivePage.ArchiveView.Blur | src/pages/ArchivePage.tsx:87 | leaving the button disarms it |
| MyTasks.ComparatorTotal | src/pages/MyTasksPage.tsx:56-65 | each of the four comparators is a total preorder, so the sort is well defined |
| MyTasks.Filtered | src/pages/MyTasksPage.tsx:44-68 | a task is shown iff it is in the list and passes the status, priority and due-date filters; each exactly as often as in the input; in the chosen order |
| MyTasks.FilteredOrder | src/pages/MyTasksPage.tsx:56-65 | by due date: dated tasks ascend and every undated task follows all dated ones; by priority: rank CRITICAL 0 < HIGH 1 < MEDIUM 2 < LOW 3 never decreases; by progress: never increases; by creation: newest first |
| MyTasks.SortedOrder | src/pages/MyTasksPage.tsx:56-65 | the same four per-sort promises hold for any list sorted by the chosen comparator |
| Common.SelectCounts | src/pages/MyTasksPage.tsx:47-53 | `Array.prototype.filter` keeps each passing element exactly as often as it occurs and drops every failing one |
| Common.SortByKeepsTieOrder | src/hooks/useTasks.ts:38 | the sort is stable: whatever order the input gives to elements the comparator ties, the output gives them too |
| Upcoming.DueFirstTotal | src/features/dashboard/UpcomingTasks.tsx:13 | the due-date comparator is a total preorder |
| Upcoming.ByDueDate | src/features/dashboard/UpcomingTasks.tsx:12-13 | the eligible tasks, the same ones as often, sorted by due date |
| Upcoming.PrefixOf | src/features/dashboard/UpcomingTasks.tsx:14 | a prefix of a sorted list is sorted and drawn from the list |
| Upcoming.Upcoming | src/features/dashboard/UpcomingTasks.tsx:11-14 | at most ten tasks, none DONE, all with a due date, ascending by due date, each taken from the input |
| Upcoming.EligibleAll | src/features/dashboard/UpcomingTasks.tsx:12 | whatever is drawn from the eligible tasks is not DONE and has a due date |
| Upcoming.UpcomingCount | src/features/dashboard/UpcomingTasks.tsx:11-14 | exactly min(number of eligible tasks, 10) tasks are shown |
| Upcoming.UpcomingEarliest | src/features/dashboard/UpcomingTasks.tsx:11-14 | no eligible task is left out while one due later is shown |
| Slideover.Toggle | src/features/tasks/TaskSlideover.tsx:33-35 | same length, ids and texts in the same order; `done` flips exactly on the items with that id |
| Slideover.ToggleTwice | src/features/tasks/TaskSlideover.tsx:33-35 | toggling the same id twice gives back the list |
| Slideover.Remove | src/features/tasks/TaskSlideover.tsx:37-39 | an item remains iff it was there and its id differs; the list never grows |
| Slideover.RemoveAppend | src/features/tasks/TaskSlideover.tsx:37-39 | remove works piecewise on a concatenation, so the survivors keep their order |
| Slideover.RemoveAbsent | src/features/tasks/TaskSlideover.tsx:37-39 | removing an id no item has leaves the list unchanged |
| Slideover.AddBlank | src/features/tasks/TaskSlideover.tsx:42 | blank or whitespace-only input changes nothing |
| Slideover.AddAppends | src/features/tasks/TaskSlideover.tsx:43 | otherwise exactly one item is appended after the unchanged list, with the trimmed non-empty text and `done = false` |
| Slideover.DoneCount | src/features/tasks/TaskSlideover.tsx:47 | the done count never exceeds the list length, and equals it iff every item is done |
| Slideover.DoneCountAppend | src/features/tasks/TaskSlideover.tsx:47 | the done count of a concatenation is the sum of the done counts |
| Slideover.AddKeepsDoneCount | src/features/tasks/TaskSlideover.tsx:41-47 | adding never changes the done count and grows the list by at most one |
| Slideover.HandleSave | src/features/tasks/TaskSlideover.tsx:117-121 | with no task id (or id 0) or an empty title nothing is written; otherwise the form is applied by `updateTask` |
| Slideover.PatchedTitle | src/features/tasks/TaskSlideover.tsx:117-121 | the title the save guard checks is the title `updateTask` stores (the last title in the form, or the old one when the form has none) |
| Slideover.ChecklistPatch | src/features/tasks/TaskSlideover.tsx:259-261 | a checklist-only patch changes only `checklist` and `updatedAt`, and writes at most one history row, under `checklist`, none iff the checklist is unchanged |
| Slideover.ChecklistChanged | src/features/tasks/TaskSlideover.tsx:259-261 | a checklist change in view mode replaces only the task's checklist (and `updatedAt`) and appends its history |
| Ui.StepFrame | src/stores/uiStore.ts:35-49 | every action leaves the three parts of the state it does not own unchanged |
| Ui.SlideoverOpenClose | src/stores/uiStore.ts:37-38 | open yields `isOpen` on that task id; close yields closed with no task, whatever came before |
| Ui.ModalOpenClose | src/stores/uiStore.ts:41-42 | open sets type and payload; close sets type null and drops the payload, whatever came before |
| Ui.ToggleSidebarTwice | src/stores/uiStore.ts:45 | toggle flips `sidebarCollapsed`, and twice is the identity |
| Ui.SidebarParity | src/stores/uiStore.ts:35-49 | after any run of actions, the sidebar is collapsed iff it was so initially XOR an odd number of toggles ran |
| Ui.UiStore.constructor | src/stores/uiStore.ts:36-47 | slide-over closed with no task, no modal, sidebar expanded, no project selected |
| Ui.UiStore.OpenTaskSlideover | src/stores/uiStore.ts:37 | opens the slide-over on the task; the state is one `Step` of the action |
| Ui.UiStore.CloseTaskSlideover | src/stores/uiStore.ts:38 | closes the slide-over and clears its task |
| Ui.UiStore.OpenModal | src/stores/uiStore.ts:41 | shows the modal type with its payload |
| Ui.UiStore.CloseModal | src/stores/uiStore.ts:42 | hides the modal and drops its payload |
| Ui.UiStore.ToggleSidebar | src/stores/uiStore.ts:45 | flips `sidebarCollapsed` only |
| Ui.UiStore.SetSelectedProjectId | src/stores/uiStore.ts:48 | sets the selected project only |
| Progress.Round | src/components/ui/ProgressBar.tsx:16 | `Math.round` gives the integer nearest the value, a half rounded up |
| Progress.Pct | src/components/ui/ProgressBar.tsx:16 | the width lies in [0, 100]; it is 0 for values ≤ 0, 100 for values ≥ 100, and the rounded value when that is in range |
| Progress.PctOfPercent | src/components/ui/ProgressBar.tsx:16 | an integer from 0 to 100 is drawn as itself |
| Progress.PctMonotone | src/components/ui/ProgressBar.tsx:16 | a larger value never draws a shorter bar |
| Progress.BandIntervals | src/components/ui/ProgressBar.tsx:8-13 | green iff ≥ 80, blue iff in [50, 80), yellow iff in [20, 50), gray iff below 20 |
| Progress.BandMonotone | src/components/ui/ProgressBar.tsx:8-13 | a larger value never falls in a lower band |
| Progress.BarColorMonotone | src/components/ui/ProgressBar.tsx:22 | the drawn colour, the band of the clamped width, is monotone in the value |

## Left out

- Parent auto-completion and auto-reopen on a task status change, category or SubCategory
  archive and reopen, and undoable notifications (toasts) are not modelled. The code has none
  of them: `updateTask` only writes history, and the archive and reopen functions some
  components call are not returned by any hook.
- Every row of an imported file is taken to carry its `id`. A hand-edited file whose rows lack
  ids, where `bulkPut` would pick keys itself and the merge's id maps would miss those rows,
  is not modelled.
- Import does not normalise older backups (default `archivedAt` or `status`). The code does
  not do it, so the model takes rows as they are.
- `bulkPermanentlyDelete` stops at the first item whose delete throws, because the code
  has no per-item error handling. It does not go on past failures or collect the failed ids.
  The failure point is a parameter (`failAt`).
- Update, restore or delete of a missing id is a no-op, as the storage's `update` and
  `delete` are. No error is raised for a missing id.
- The restore window is strictly below 2000 ms, as in the code. The inline comment's "1 sec"
  is not what the code does.
- The storage engine, indexes and live queries are reduced to maps: reactivity, the
  asynchronous calls and transaction scheduling are not modelled. Each transaction is one
  method that fully applies, or, for import, applies nothing. The id reads that the
  delete paths make before their transaction are taken on the same store.
- Only a failure of the whole import transaction is modelled, in two cases: a missing
  table array, or a duplicate id in overwrite mode. Other storage failures (quota, I/O) are
  not modelled.
- File and browser I/O are not modelled:
  - the Blob download and the export file name;
  - `file.text()` and `JSON.parse` (the backup comes in already parsed);
  - `confirm()`/`alert()` (a boolean parameter);
  - keyboard listeners.
- The clock is not modelled:
  - `new Date()`, `toISOString` and `getTime` become integer millisecond parameters;
  - `today` and `nextWeek` are date-string parameters;
  - `Date.now().toString()` for a checklist item id is a string parameter.
- Timestamps are integers, not ISO strings, so `localeCompare` on them is integer
  comparison. A listed `archivedAt` is never the empty string, so the page's truthiness test
  on `parentArchivedAt` is a presence test.
- Locale-sensitive operations are parameters: `toLowerCase` is `fold` and `localeCompare`
  on names is `nameLe`. No Unicode case folding or collation is modelled.
- `JSON.stringify` is a parameter. Its results on `undefined` (an absent key) are not
  distinguished from `null`.
- MyTasks.Filtered: the status, priority and due-date filters are applied in one pass with
  their conjunction. This keeps the same tasks in the same order as the code's three passes,
  but the three intermediate lists are not modelled.
- ArchivePage.ArchiveView.HandleDeleteAll takes the shown list as a parameter rather than
  recomputing it from its own fields. The page computes it with `ArchivePage.Filtered`.
- An archive item's `projectId` is a plain id, never null. Every listing path fills it from a
  stored row.
- Floating-point display arithmetic is not modelled: rounded progress averages, the
  checklist ratio, and the day-difference colouring.
- Presentation components are not modelled: forms, tables, modals, badges, the sidebar,
  layout and routing.
- `useTasksByProject`, `useTask` and `useProject` are not modelled. They are single index
  lookups or key reads with no rule of their own, and the model reads the tables directly.
- The task slide-over's delete button (`handleDelete`) is not modelled separately. It is
  `deleteTask` behind a confirmation (`Cascade.DeleteTask`).
- Progress.Pct takes a real-valued `value`. JavaScript numbers that are NaN or infinite are
  not modelled.
