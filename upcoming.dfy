/** The dashboard's upcoming tasks: the unfinished tasks that have a due
    date, earliest due date first, at most ten of them. */
module Upcoming {
  import opened Common
  import opened Types
  import opened Text

  /** `t.status !== 'DONE' && t.dueDate`. */
  predicate Eligible(t: Row<Task>) {
    t.value.status != Done && t.value.dueDate != ""
  }

  /** `a.dueDate.localeCompare(b.dueDate) <= 0` on ISO dates. */
  predicate DueFirst(a: Row<Task>, b: Row<Task>) {
    LexLe(a.value.dueDate, b.value.dueDate)
  }

  lemma DueFirstTotal()
    ensures TotalPreorder(DueFirst)
  {
    forall a: Row<Task>, b: Row<Task> ensures DueFirst(a, b) || DueFirst(b, a) {
      LexLeTotal(a.value.dueDate, b.value.dueDate);
    }
    forall a: Row<Task>, b: Row<Task>, c: Row<Task> | DueFirst(a, b) && DueFirst(b, c) ensures DueFirst(a, c) {
      LexLeTransitive(a.value.dueDate, b.value.dueDate, c.value.dueDate);
    }
  }

  /** The eligible tasks, sorted by due date (stable). */
  function ByDueDate(tasks: seq<Row<Task>>): (s: seq<Row<Task>>)
    ensures multiset(s) == multiset(Filter(tasks, Eligible))
    ensures Sorted(s, DueFirst)
  {
    DueFirstTotal();
    SortBy(Filter(tasks, Eligible), DueFirst)
  }

  /** The first `k` of a sorted list: sorted, and drawn from the list. */
  lemma PrefixOf(s: seq<Row<Task>>, k: nat)
    requires k <= |s|
    requires Sorted(s, DueFirst)
    ensures Sorted(s[..k], DueFirst)
    ensures multiset(s[..k]) <= multiset(s)
  {
    assert s == s[..k] + s[k..];
  }

  /** `upcoming`: filter, sort, `.slice(0, 10)`. At most ten tasks, none
      done, all dated, in due-date order, each taken from the input. */
  function Upcoming(tasks: seq<Row<Task>>): (r: seq<Row<Task>>)
    ensures |r| <= 10
    ensures forall i :: 0 <= i < |r| ==> r[i].value.status != Done && r[i].value.dueDate != ""
    ensures Sorted(r, DueFirst)
    ensures multiset(r) <= multiset(tasks)
  {
    var s := ByDueDate(tasks);
    var k := if |s| <= 10 then |s| else 10;
    PrefixOf(s, k);
    EligibleAll(tasks, s[..k]);
    s[..k]
  }

  /** Anything drawn from the eligible tasks is eligible. */
  lemma EligibleAll(tasks: seq<Row<Task>>, r: seq<Row<Task>>)
    requires multiset(r) <= multiset(Filter(tasks, Eligible))
    ensures forall i :: 0 <= i < |r| ==> r[i].value.status != Done && r[i].value.dueDate != ""
  {
    forall i | 0 <= i < |r| ensures Eligible(r[i]) {
      assert r[i] in multiset(r);
      assert r[i] in Filter(tasks, Eligible);
    }
  }

  /** Ten tasks are shown whenever ten are eligible, else all of them. */
  lemma UpcomingCount(tasks: seq<Row<Task>>)
    ensures |Upcoming(tasks)| == if Count(tasks, Eligible) < 10 then Count(tasks, Eligible) else 10
  {
    var s := ByDueDate(tasks);
    assert |s| == |multiset(s)| == |Filter(tasks, Eligible)|;
  }

  /** No eligible task is left out while a later-due one is shown. */
  lemma UpcomingEarliest(tasks: seq<Row<Task>>)
    ensures forall t, i ::
      (t in tasks && Eligible(t) && 0 <= i < |Upcoming(tasks)|
       && LexLt(t.value.dueDate, Upcoming(tasks)[i].value.dueDate)) ==> t in Upcoming(tasks)
  {
    var s := ByDueDate(tasks);
    var r := Upcoming(tasks);
    assert r == s[..|r|];
    forall t, i | t in tasks && Eligible(t) && 0 <= i < |r| && LexLt(t.value.dueDate, r[i].value.dueDate)
      ensures t in r
    {
      var j := IndexIn(tasks, s, t);
      if j >= |r| {
        EarlierShown(s, |r|, i, j);
        LexLeAntisymmetric(t.value.dueDate, r[i].value.dueDate);
        assert false;
      }
      assert r[j] == t;
    }
  }

  /** An eligible task has a place in the sorted eligible tasks. */
  lemma IndexIn(tasks: seq<Row<Task>>, s: seq<Row<Task>>, t: Row<Task>) returns (j: nat)
    requires s == ByDueDate(tasks)
    requires t in tasks && Eligible(t)
    ensures j < |s| && s[j] == t
  {
    assert t in Filter(tasks, Eligible);
    assert t in multiset(s);
    j :| 0 <= j < |s| && s[j] == t;
  }

  /** In a list sorted by due date, an entry of the first `k` is due no
      later than any entry after them. */
  lemma EarlierShown(s: seq<Row<Task>>, k: nat, i: nat, j: nat)
    requires Sorted(s, DueFirst)
    requires i < k <= j < |s|
    ensures LexLe(s[i].value.dueDate, s[j].value.dueDate)
  {
    assert DueFirst(s[i], s[j]);
  }
}
