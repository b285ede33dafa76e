/** The archive page: the archived items narrowed by a search text, a type
    and a project, sorted by archival time or name; restoring an item (with
    a confirmation step when its parent is archived too), deleting one for
    good, and deleting every shown item after a second click. Lower-casing
    and locale name comparison are parameters: `fold` stands for
    `toLowerCase` and `nameLe` for `localeCompare(…) <= 0`. */
module ArchivePage {
  import opened Common
  import opened Types
  import opened Text
  import opened Db
  import opened Cascade
  import opened Archive

  /** `sortBy`: `'archivedAt_asc'`, `'name_asc'`, and the default
      `'archivedAt_desc'` (any other value sorts the same way). */
  datatype SortOrder = ArchivedAsc | NameAsc | ArchivedDesc

  /** The search test: a search text that trims to nothing keeps every
      item; otherwise the lower-cased, untrimmed text must occur in the
      lower-cased name or project name (an item without a project name
      is searched as the empty string). */
  predicate SearchKept(x: ArchiveItem, search: string, fold: string -> string) {
    Trim(search) == []
    || Contains(fold(x.name), fold(search))
    || Contains(fold(if x.projectName.Some? then x.projectName.value else ""), fold(search))
  }

  /** All three filters. */
  predicate Kept(x: ArchiveItem, search: string, fold: string -> string,
                 typeFilter: Option<ItemType>, projectFilter: Option<Id>) {
    && SearchKept(x, search, fold)
    && (typeFilter.None? || x.kind == typeFilter.value)
    && (projectFilter.None? || x.projectId == projectFilter.value)
  }

  /** `compare(a, b) <= 0` for the chosen order. */
  predicate OrderLe(sort: SortOrder, nameLe: (string, string) -> bool, a: ArchiveItem, b: ArchiveItem) {
    match sort
    case ArchivedAsc => a.archivedAt <= b.archivedAt
    case NameAsc => nameLe(a.name, b.name)
    case ArchivedDesc => b.archivedAt <= a.archivedAt
  }

  function Order(sort: SortOrder, nameLe: (string, string) -> bool): (ArchiveItem, ArchiveItem) -> bool {
    (a: ArchiveItem, b: ArchiveItem) => OrderLe(sort, nameLe, a, b)
  }

  lemma OrderTotal(sort: SortOrder, nameLe: (string, string) -> bool)
    requires TotalPreorder(nameLe)
    ensures TotalPreorder(Order(sort, nameLe))
  {
    var le := Order(sort, nameLe);
    forall a, b ensures le(a, b) || le(b, a) {
      assert nameLe(a.name, b.name) || nameLe(b.name, a.name);
    }
    forall a, b, c | le(a, b) && le(b, c) ensures le(a, c) {
      if sort == NameAsc {
        assert nameLe(a.name, b.name) && nameLe(b.name, c.name);
      }
    }
  }

  /** The `filtered` memo: exactly the listed items that pass the filters,
      each exactly as often as listed, in the chosen order. */
  function Filtered(items: seq<ArchiveItem>, search: string, fold: string -> string,
                    typeFilter: Option<ItemType>, projectFilter: Option<Id>,
                    sort: SortOrder, nameLe: (string, string) -> bool): (r: seq<ArchiveItem>)
    requires TotalPreorder(nameLe)
    ensures forall x :: x in r <==> x in items && Kept(x, search, fold, typeFilter, projectFilter)
    ensures forall x :: multiset(r)[x] == if Kept(x, search, fold, typeFilter, projectFilter) then multiset(items)[x] else 0
    ensures multiset(r) <= multiset(items)
    ensures Sorted(r, Order(sort, nameLe))
  {
    var kept := Filter(items, (x: ArchiveItem) => Kept(x, search, fold, typeFilter, projectFilter));
    OrderTotal(sort, nameLe);
    SortedMembers(kept, Order(sort, nameLe));
    SortBy(kept, Order(sort, nameLe))
  }

  /** With a blank search and no type or project chosen the page shows
      every archived item, only reordered. */
  lemma UnfilteredShowsAll(items: seq<ArchiveItem>, search: string, fold: string -> string,
                           sort: SortOrder, nameLe: (string, string) -> bool)
    requires TotalPreorder(nameLe)
    requires forall i :: 0 <= i < |search| ==> IsSpace(search[i])
    ensures multiset(Filtered(items, search, fold, None, None, sort, nameLe)) == multiset(items)
  {
    TrimEmptyIffBlank(search);
    FilterKeepsAll(items, (x: ArchiveItem) => Kept(x, search, fold, None, None));
  }

  /** The page's own state. */
  class ArchiveView {
    var search: string
    var typeFilter: Option<ItemType>
    var projectFilter: Option<Id>
    var sortBy: SortOrder
    /** The item waiting in the "parent is archived too" dialog. */
    var restoreConfirm: Option<ArchiveItem>
    /** 0, or 1 after the first click of "delete all". */
    var deleteAllStep: nat

    constructor ()
      ensures search == [] && typeFilter == None && projectFilter == None
      ensures sortBy == ArchivedDesc && restoreConfirm == None && deleteAllStep == 0
    {
      search := [];
      typeFilter := None;
      projectFilter := None;
      sortBy := ArchivedDesc;
      restoreConfirm := None;
      deleteAllStep := 0;
    }

    /** The filter bar's controls. */
    method SetFilters(s: string, t: Option<ItemType>, p: Option<Id>, o: SortOrder)
      modifies this`search, this`typeFilter, this`projectFilter, this`sortBy
      ensures search == s && typeFilter == t && projectFilter == p && sortBy == o
    {
      search, typeFilter, projectFilter, sortBy := s, t, p, o;
    }

    /** `handleRestore(item)`: an item whose parent is archived waits for
        the dialog and the store is untouched; any other is restored. */
    method HandleRestore(db: Database, item: ArchiveItem, now: Time)
      requires db.Valid()
      modifies db, this`restoreConfirm
      ensures db.Valid()
      ensures item.parentArchivedAt.Some? ==>
        restoreConfirm == Some(item) && db.Snapshot() == old(db.Snapshot())
      ensures item.parentArchivedAt.None? ==>
        && restoreConfirm == old(restoreConfirm)
        && db.projects == Restored(old(db.Snapshot()), item, now).projects
        && db.categories == Restored(old(db.Snapshot()), item, now).categories
        && db.subCategories == Restored(old(db.Snapshot()), item, now).subCategories
        && db.tasks == Restored(old(db.Snapshot()), item, now).tasks
        && db.taskHistory == old(db.taskHistory)
    {
      if item.parentArchivedAt.Some? {
        restoreConfirm := Some(item);
      } else {
        RestoreItem(db, item, now);
        RestoreTouchesLittle(old(db.Snapshot()), item, now);
      }
    }

    /** "Restore only this item" in the dialog, which is shown only while
        an item waits: restore it, then close the dialog. */
    method RestoreOnlyThis(db: Database, now: Time)
      requires db.Valid() && restoreConfirm.Some?
      modifies db, this`restoreConfirm
      ensures db.Valid() && restoreConfirm == None
      ensures db.projects == Restored(old(db.Snapshot()), old(restoreConfirm.value), now).projects
      ensures db.categories == Restored(old(db.Snapshot()), old(restoreConfirm.value), now).categories
      ensures db.subCategories == Restored(old(db.Snapshot()), old(restoreConfirm.value), now).subCategories
      ensures db.tasks == Restored(old(db.Snapshot()), old(restoreConfirm.value), now).tasks
      ensures db.taskHistory == old(db.taskHistory)
    {
      RestoreItem(db, restoreConfirm.value, now);
      RestoreTouchesLittle(old(db.Snapshot()), restoreConfirm.value, now);
      restoreConfirm := None;
    }

    /** "Cancel" in the dialog. */
    method CancelRestore()
      modifies this`restoreConfirm
      ensures restoreConfirm == None
    {
      restoreConfirm := None;
    }

    /** `handleDelete(item)`: `confirmed` is the answer to `confirm(…)`. */
    method HandleDelete(db: Database, item: ArchiveItem, confirmed: bool)
      requires db.Valid()
      modifies db
      ensures db.Valid()
      ensures !confirmed ==> db.Snapshot() == old(db.Snapshot())
      ensures confirmed ==> db.Snapshot() == Cascade.Cascade(old(db.Snapshot()), RootOf(item))
    {
      if confirmed {
        PermanentlyDelete(db, item);
      }
    }

    /** `handleDeleteAll()`: the first click only arms the button; the
        second deletes every item of `shown` (the `filtered` list the
        handler sees, `Filtered` of the current listing and filters) in
        order and disarms it, unless a delete fails (at index `failAt`),
        which leaves it armed. */
    method HandleDeleteAll(db: Database, shown: seq<ArchiveItem>, failAt: Option<nat>)
      requires db.Valid()
      modifies db, this`deleteAllStep
      ensures db.Valid()
      ensures old(deleteAllStep) == 0 ==> deleteAllStep == 1 && db.Snapshot() == old(db.Snapshot())
      ensures old(deleteAllStep) == 1 ==>
        && db.Snapshot() == DeletedAll(old(db.Snapshot()), shown[..Archive.Completed(shown, failAt)])
        && deleteAllStep == (if Archive.Completed(shown, failAt) == |shown| then 0 else 1)
      ensures old(deleteAllStep) == 1 && old(db.Snapshot()).Consistent() ==>
        && db.Snapshot().Consistent()
        && forall x :: x in shown[..Archive.Completed(shown, failAt)] ==> Gone(db.Snapshot(), x)
      ensures old(deleteAllStep) > 1 ==> deleteAllStep == old(deleteAllStep) && db.Snapshot() == old(db.Snapshot())
    {
      if deleteAllStep == 0 {
        deleteAllStep := 1;
        return;
      }
      if deleteAllStep == 1 {
        ghost var before := db.Snapshot();
        BulkPermanentlyDelete(db, shown, failAt);
        if before.Consistent() {
          DeletedAllRemovesItems(before, shown[..Archive.Completed(shown, failAt)]);
        }
        if Archive.Completed(shown, failAt) == |shown| {
          deleteAllStep := 0;
        }
      }
    }

    /** Leaving the button disarms it. */
    method Blur()
      modifies this`deleteAllStep
      ensures deleteAllStep == 0
    {
      deleteAllStep := 0;
    }
  }
}
