/** Small value types and list operations shared by the rest of the model:
    optional values, results with an error, order-preserving filters and a
    stable insertion sort under a caller-supplied total preorder (the shape of
    JavaScript's `Array.prototype.filter` and `Array.prototype.sort`). */
module Common {

  datatype Option<T> = None | Some(value: T)

  datatype Result<T, E> = Ok(value: T) | Err(error: E)

  /** `m.get(k) ?? k`: the mapped value when there is one, the key itself otherwise. */
  function Lookup(m: map<nat, nat>, k: nat): nat {
    if k in m then m[k] else k
  }

  /** The set of the elements of `s`. */
  function Elements<T>(s: seq<T>): set<T> {
    set x | x in s
  }

  /** A comparator that is total and transitive: what a sort needs to produce an ordered list. */
  ghost predicate TotalPreorder<T(!new)>(le: (T, T) -> bool) {
    && (forall a, b :: le(a, b) || le(b, a))
    && (forall a, b, c :: le(a, b) && le(b, c) ==> le(a, c))
  }

  ghost predicate Sorted<T>(s: seq<T>, le: (T, T) -> bool) {
    forall i, j :: 0 <= i < j < |s| ==> le(s[i], s[j])
  }

  /** The elements of `s` that satisfy `p`, in their original order
      (`s.filter(p)`); `Filter` is this with its properties attached. */
  function Select<T>(s: seq<T>, p: T -> bool): seq<T> {
    if s == [] then []
    else (if p(s[0]) then [s[0]] else []) + Select(s[1..], p)
  }

  lemma {:induction false} SelectFacts<T(!new)>(s: seq<T>, p: T -> bool)
    ensures forall x :: x in Select(s, p) <==> x in s && p(x)
    ensures multiset(Select(s, p)) <= multiset(s)
    ensures |Select(s, p)| <= |s|
    ensures forall i :: 0 <= i < |Select(s, p)| ==> p(Select(s, p)[i])
  {
    if s != [] {
      SelectFacts(s[1..], p);
      assert s == [s[0]] + s[1..];
    }
  }

  /** Each kept element occurs in the result exactly as often as in `s`. */
  lemma {:induction false} SelectCounts<T(!new)>(s: seq<T>, p: T -> bool)
    ensures forall x :: multiset(Select(s, p))[x] == if p(x) then multiset(s)[x] else 0
  {
    if s != [] {
      SelectCounts(s[1..], p);
      assert s == [s[0]] + s[1..];
      assert multiset(s) == multiset{s[0]} + multiset(s[1..]);
      var head := if p(s[0]) then [s[0]] else [];
      assert Select(s, p) == head + Select(s[1..], p);
      assert multiset(Select(s, p)) == multiset(head) + multiset(Select(s[1..], p));
    }
  }

  function Filter<T(!new)>(s: seq<T>, p: T -> bool): (r: seq<T>)
    ensures forall x :: x in r <==> x in s && p(x)
    ensures forall x :: multiset(r)[x] == if p(x) then multiset(s)[x] else 0
    ensures multiset(r) <= multiset(s)
    ensures |r| <= |s|
    ensures forall i :: 0 <= i < |r| ==> p(r[i])
  {
    SelectFacts(s, p);
    SelectCounts(s, p);
    Select(s, p)
  }

  /** A filter that every element passes returns the list unchanged. */
  lemma {:induction false} SelectKeepsAll<T>(s: seq<T>, p: T -> bool)
    requires forall i :: 0 <= i < |s| ==> p(s[i])
    ensures Select(s, p) == s
  {
    if s != [] {
      SelectKeepsAll(s[1..], p);
      assert s == [s[0]] + s[1..];
    }
  }

  lemma FilterKeepsAll<T(!new)>(s: seq<T>, p: T -> bool)
    requires forall i :: 0 <= i < |s| ==> p(s[i])
    ensures Filter(s, p) == s
  {
    SelectKeepsAll(s, p);
  }

  /** Filtering works piecewise on a concatenation, so it keeps order. */
  lemma {:induction false} SelectAppend<T>(a: seq<T>, b: seq<T>, p: T -> bool)
    ensures Select(a + b, p) == Select(a, p) + Select(b, p)
  {
    if a == [] {
      assert a + b == b;
    } else {
      SelectAppend(a[1..], b, p);
      assert (a + b)[0] == a[0] && (a + b)[1..] == a[1..] + b;
    }
  }

  lemma FilterAppend<T(!new)>(a: seq<T>, b: seq<T>, p: T -> bool)
    ensures Filter(a + b, p) == Filter(a, p) + Filter(b, p)
  {
    SelectAppend(a, b, p);
  }

  /** Insertion of `x` into an ordered list, after every element that is not
      greater than `x` (so equal elements keep their arrival order). */
  function Insert<T(!new)>(x: T, s: seq<T>, le: (T, T) -> bool): (r: seq<T>)
    requires TotalPreorder(le)
    requires Sorted(s, le)
    ensures multiset(r) == multiset(s) + multiset{x}
    ensures |r| == |s| + 1
    ensures Sorted(r, le)
  {
    if s == [] then [x]
    else if le(s[0], x) then
      assert s == [s[0]] + s[1..];
      var tail := Insert(x, s[1..], le);
      LeastBeforeAll(s[0], x, s[1..], tail, le);
      [s[0]] + tail
    else
      [x] + s
  }

  lemma LeastBeforeAll<T>(h: T, x: T, rest: seq<T>, tail: seq<T>, le: (T, T) -> bool)
    requires le(h, x)
    requires forall k :: 0 <= k < |rest| ==> le(h, rest[k])
    requires multiset(tail) == multiset(rest) + multiset{x}
    ensures forall k :: 0 <= k < |tail| ==> le(h, tail[k])
  {
    forall k | 0 <= k < |tail|
      ensures le(h, tail[k])
    {
      assert tail[k] in multiset(tail);
      if tail[k] != x {
        assert tail[k] in multiset(rest);
        var j :| 0 <= j < |rest| && rest[j] == tail[k];
      }
    }
  }

  /** The elements of `s` ordered by `le`; equal elements keep their input order. */
  function SortBy<T(!new)>(s: seq<T>, le: (T, T) -> bool): (r: seq<T>)
    requires TotalPreorder(le)
    ensures multiset(r) == multiset(s)
    ensures |r| == |s|
    ensures Sorted(r, le)
  {
    if s == [] then []
    else
      assert s == s[..|s| - 1] + [s[|s| - 1]];
      Insert(s[|s| - 1], SortBy(s[..|s| - 1], le), le)
  }

  /** Every two elements of `s` that `le` ties appear in `before` order. */
  ghost predicate TieOrdered<T>(s: seq<T>, le: (T, T) -> bool, before: (T, T) -> bool) {
    forall i, j :: 0 <= i < j < |s| && le(s[i], s[j]) && le(s[j], s[i]) ==> before(s[i], s[j])
  }

  /** Inserting `x` behind its ties keeps the order among ties. */
  lemma {:induction false} InsertKeepsTieOrder<T(!new)>(x: T, s: seq<T>, le: (T, T) -> bool, before: (T, T) -> bool)
    requires TotalPreorder(le)
    requires Sorted(s, le)
    requires TieOrdered(s, le, before)
    requires forall y :: y in s && le(x, y) && le(y, x) ==> before(y, x)
    ensures TieOrdered(Insert(x, s, le), le, before)
  {
    if s != [] && le(s[0], x) {
      assert s == [s[0]] + s[1..];
      var rest := s[1..];
      assert TieOrdered(rest, le, before) by {
        forall i, j | 0 <= i < j < |rest| ensures rest[i] == s[i + 1] && rest[j] == s[j + 1] { }
      }
      forall m | 0 <= m < |rest| && le(s[0], rest[m]) && le(rest[m], s[0])
        ensures before(s[0], rest[m])
      {
        assert rest[m] == s[m + 1];
      }
      InsertKeepsTieOrder(x, rest, le, before);
      ConsKeepsTieOrder(s[0], x, rest, Insert(x, rest, le), le, before);
    } else if s != [] {
      FrontKeepsTieOrder(x, s, le, before);
    }
  }

  /** An element put before a tie-ordered insertion result, with every tie
      it has there in `before` order, keeps the whole list tie-ordered. */
  lemma ConsKeepsTieOrder<T>(h: T, x: T, rest: seq<T>, tail: seq<T>, le: (T, T) -> bool, before: (T, T) -> bool)
    requires TieOrdered(tail, le, before)
    requires multiset(tail) == multiset(rest) + multiset{x}
    requires le(h, x) && le(x, h) ==> before(h, x)
    requires forall m :: 0 <= m < |rest| && le(h, rest[m]) && le(rest[m], h) ==> before(h, rest[m])
    ensures TieOrdered([h] + tail, le, before)
  {
    var r := [h] + tail;
    forall i, j | 0 <= i < j < |r| && le(r[i], r[j]) && le(r[j], r[i])
      ensures before(r[i], r[j])
    {
      if i == 0 {
        assert r[j] == tail[j - 1];
        assert tail[j - 1] in multiset(tail);
        if tail[j - 1] != x {
          assert tail[j - 1] in multiset(rest);
          var m :| 0 <= m < |rest| && rest[m] == tail[j - 1];
        }
      } else {
        assert r[i] == tail[i - 1] && r[j] == tail[j - 1];
      }
    }
  }

  /** An element strictly below the head of a sorted list ties with none of it. */
  lemma FrontKeepsTieOrder<T(!new)>(x: T, s: seq<T>, le: (T, T) -> bool, before: (T, T) -> bool)
    requires TotalPreorder(le)
    requires s != [] && !le(s[0], x)
    requires Sorted(s, le)
    requires TieOrdered(s, le, before)
    ensures TieOrdered([x] + s, le, before)
  {
    var r := [x] + s;
    forall i, j | 0 <= i < j < |r| && le(r[i], r[j]) && le(r[j], r[i])
      ensures before(r[i], r[j])
    {
      if i == 0 {
        assert false;
      } else {
        assert r[i] == s[i - 1] && r[j] == s[j - 1];
      }
    }
  }

  /** Stability: whatever order the input gives to tied elements, the sorted
      copy gives them too. */
  lemma {:induction false} SortByKeepsTieOrder<T(!new)>(s: seq<T>, le: (T, T) -> bool, before: (T, T) -> bool)
    requires TotalPreorder(le)
    requires TieOrdered(s, le, before)
    ensures TieOrdered(SortBy(s, le), le, before)
  {
    if s != [] {
      var init, last := s[..|s| - 1], s[|s| - 1];
      assert TieOrdered(init, le, before) by {
        forall i, j | 0 <= i < j < |init| ensures init[i] == s[i] && init[j] == s[j] { }
      }
      SortByKeepsTieOrder(init, le, before);
      var sorted := SortBy(init, le);
      forall y | y in sorted && le(last, y) && le(y, last) ensures before(y, last) {
        assert y in multiset(sorted);
        assert y in multiset(init);
        var m :| 0 <= m < |init| && init[m] == y;
        assert s[m] == y;
      }
      InsertKeepsTieOrder(last, sorted, le, before);
    }
  }

  /** A list that `before` orders strictly orders its ties that way too. */
  lemma StrictlyOrderedTies<T>(s: seq<T>, le: (T, T) -> bool, before: (T, T) -> bool)
    requires forall i, j :: 0 <= i < j < |s| ==> before(s[i], s[j])
    ensures TieOrdered(s, le, before)
  {
  }

  /** A filter keeps any strict order the list already has. */
  lemma {:induction false} SelectKeepsOrder<T(!new)>(s: seq<T>, p: T -> bool, before: (T, T) -> bool)
    requires forall i, j :: 0 <= i < j < |s| ==> before(s[i], s[j])
    ensures forall i, j :: 0 <= i < j < |Select(s, p)| ==> before(Select(s, p)[i], Select(s, p)[j])
  {
    if s != [] {
      SelectKeepsOrder(s[1..], p, before);
      SelectFacts(s[1..], p);
      var rest := Select(s[1..], p);
      var r := Select(s, p);
      if p(s[0]) {
        assert r == [s[0]] + rest;
        forall i, j | 0 <= i < j < |r| ensures before(r[i], r[j]) {
          if i == 0 {
            assert r[j] == rest[j - 1] && r[j] in s[1..];
            var m :| 0 <= m < |s[1..]| && s[1..][m] == r[j];
            assert s[m + 1] == r[j];
          } else {
            assert r[i] == rest[i - 1] && r[j] == rest[j - 1];
          }
        }
      } else {
        assert r == rest;
      }
    }
  }

  /** Membership in a sorted copy is membership in the original. */
  lemma SortedMembers<T(!new)>(s: seq<T>, le: (T, T) -> bool)
    requires TotalPreorder(le)
    ensures forall x :: x in SortBy(s, le) <==> x in s
  {
    var r := SortBy(s, le);
    forall x ensures x in r <==> x in s {
      assert x in r <==> x in multiset(r);
      assert x in s <==> x in multiset(s);
    }
  }

  /** Number of elements of `s` that satisfy `p`. */
  function Count<T(!new)>(s: seq<T>, p: T -> bool): (n: nat)
    ensures n <= |s|
    ensures n == |Filter(s, p)|
  {
    if s == [] then 0 else (if p(s[0]) then 1 else 0) + Count(s[1..], p)
  }
}
