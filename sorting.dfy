/**
 * The stable sort behind `Array.prototype.sort` (stable since ES2019) and
 * Python's `sorted`/`Counter.most_common`, as insertion sort over a
 * "may precede" relation `le`: for a comparator `cmp`, `le(a, b)` is
 * `cmp(a, b) <= 0`. Also `filter` and `slice(0, n)`.
 */
module Sorting {

  /** `s.filter(p)` */
  function Filter<T>(s: seq<T>, p: T -> bool): (r: seq<T>)
    ensures |r| <= |s|
    ensures forall i :: 0 <= i < |r| ==> p(r[i])
  {
    if s == [] then []
    else if p(s[0]) then [s[0]] + Filter(s[1..], p)
    else Filter(s[1..], p)
  }

  lemma {:induction false} FilterMembers<T>(s: seq<T>, p: T -> bool, x: T)
    ensures x in Filter(s, p) <==> x in s && p(x)
  {
    if s != [] {
      FilterMembers(s[1..], p, x);
      assert s == [s[0]] + s[1..];
    }
  }

  lemma FilterFrom<T>(s: seq<T>, p: T -> bool)
    ensures forall i :: 0 <= i < |Filter(s, p)| ==> Filter(s, p)[i] in s
  {
    forall i | 0 <= i < |Filter(s, p)| ensures Filter(s, p)[i] in s {
      FilterMembers(s, p, Filter(s, p)[i]);
    }
  }

  lemma {:induction false} FilterAppend<T>(a: seq<T>, b: seq<T>, p: T -> bool)
    ensures Filter(a + b, p) == Filter(a, p) + Filter(b, p)
  {
    if a == [] {
      assert a + b == b;
    } else {
      var x, t := a[0], a[1..];
      assert a == [x] + t && a + b == [x] + (t + b);
      FilterAppend(t, b, p);
      FilterCons(x, t + b, p);
      FilterCons(x, t, p);
    }
  }

  lemma FilterCons<T>(x: T, t: seq<T>, p: T -> bool)
    ensures Filter([x] + t, p) == if p(x) then [x] + Filter(t, p) else Filter(t, p)
  {
    assert ([x] + t)[1..] == t;
  }

  /** Filtering by `p` and by its negation splits `s` into two parts. */
  lemma {:induction false} FilterPartition<T>(s: seq<T>, p: T -> bool, q: T -> bool)
    requires forall x :: q(x) == !p(x)
    ensures multiset(Filter(s, p)) + multiset(Filter(s, q)) == multiset(s)
  {
    if s != [] {
      FilterPartition(s[1..], p, q);
      FilterPartitionStep(s, p, q);
    }
  }

  lemma FilterPartitionStep<T>(s: seq<T>, p: T -> bool, q: T -> bool)
    requires s != [] && q(s[0]) == !p(s[0])
    requires multiset(Filter(s[1..], p)) + multiset(Filter(s[1..], q)) == multiset(s[1..])
    ensures multiset(Filter(s, p)) + multiset(Filter(s, q)) == multiset(s)
  {
    var m := multiset{s[0]};
    assert multiset(s) == m + multiset(s[1..]) by {
      assert s == [s[0]] + s[1..];
    }
    if p(s[0]) {
      assert multiset(Filter(s, p)) == m + multiset(Filter(s[1..], p));
    } else {
      assert multiset(Filter(s, q)) == m + multiset(Filter(s[1..], q));
    }
  }

  lemma {:induction false} NoneFiltered<T>(s: seq<T>, p: T -> bool)
    requires forall i :: 0 <= i < |s| ==> !p(s[i])
    ensures Filter(s, p) == []
  {
    if s != [] {
      NoneFiltered(s[1..], p);
    }
  }

  lemma {:induction false} AllFiltered<T>(s: seq<T>, p: T -> bool)
    requires forall i :: 0 <= i < |s| ==> p(s[i])
    ensures Filter(s, p) == s
  {
    if s != [] {
      AllFiltered(s[1..], p);
      assert s == [s[0]] + s[1..];
    }
  }

  /** `s.slice(0, n)`, Python `s[:n]` */
  function Take<T>(s: seq<T>, n: nat): (r: seq<T>)
    ensures |r| == if |s| <= n then |s| else n
    ensures r <= s
  {
    if |s| <= n then s else s[..n]
  }

  ghost predicate Sorted<T>(s: seq<T>, le: (T, T) -> bool) {
    forall i, j :: 0 <= i < j < |s| ==> le(s[i], s[j])
  }

  ghost predicate TotalOn<T>(s: seq<T>, le: (T, T) -> bool) {
    forall x, y :: x in s && y in s ==> le(x, y) || le(y, x)
  }

  ghost predicate TransitiveOn<T>(s: seq<T>, le: (T, T) -> bool) {
    forall x, y, z :: x in s && y in s && z in s && le(x, y) && le(y, z) ==> le(x, z)
  }

  /** Puts `e` just before the first element of `t` it may precede. */
  function Insert<T>(e: T, t: seq<T>, le: (T, T) -> bool): (r: seq<T>)
    ensures |r| == |t| + 1
    ensures multiset(r) == multiset(t) + multiset{e}
  {
    if t == [] || le(e, t[0]) then [e] + t
    else
      assert t == [t[0]] + t[1..];
      [t[0]] + Insert(e, t[1..], le)
  }

  /** Stable sort: an element is inserted ahead of the later elements it ties with. */
  function Sort<T>(s: seq<T>, le: (T, T) -> bool): (r: seq<T>)
    ensures |r| == |s|
    ensures multiset(r) == multiset(s)
  {
    if s == [] then []
    else
      assert s == [s[0]] + s[1..];
      Insert(s[0], Sort(s[1..], le), le)
  }

  lemma SortMembers<T>(s: seq<T>, le: (T, T) -> bool, x: T)
    ensures x in Sort(s, le) <==> x in s
  {
    assert x in Sort(s, le) <==> x in multiset(Sort(s, le));
  }

  lemma {:induction false} InsertSorted<T>(e: T, t: seq<T>, le: (T, T) -> bool)
    requires Sorted(t, le)
    requires TotalOn([e] + t, le) && TransitiveOn([e] + t, le)
    ensures Sorted(Insert(e, t, le), le)
  {
    if t == [] {
    } else if le(e, t[0]) {
      InsertFront(e, t, le);
    } else {
      var t' := t[1..];
      InsertTailPreconditions(e, t, le);
      InsertSorted(e, t', le);
      InsertBehind(e, t, le);
    }
  }

  /** The elements of the insertion; `t[k]` is element `k + 1`. */
  lemma InsertMembers<T>(e: T, t: seq<T>)
    ensures forall k :: 0 <= k < |t| ==> t[k] in [e] + t
  {
    forall k | 0 <= k < |t| ensures t[k] in [e] + t {
      assert ([e] + t)[k + 1] == t[k];
    }
  }

  /** `e` goes in front of a sorted `t` whose head it may precede. */
  lemma InsertFront<T>(e: T, t: seq<T>, le: (T, T) -> bool)
    requires Sorted(t, le) && t != [] && le(e, t[0])
    requires TransitiveOn([e] + t, le)
    ensures Sorted([e] + t, le)
  {
    var r := [e] + t;
    InsertMembers(e, t);
    forall i, j | 0 <= i < j < |r| ensures le(r[i], r[j]) {
      if i == 0 && j > 1 {
        assert le(t[0], t[j - 1]);
        assert r[j] == t[j - 1] && t[0] in r && t[j - 1] in r;
      }
    }
  }

  /** When `e` goes behind the head of `t`, the rest of the insertion is
      still over a total preorder, and the head may precede `e`. */
  lemma InsertTailPreconditions<T>(e: T, t: seq<T>, le: (T, T) -> bool)
    requires t != [] && !le(e, t[0])
    requires TotalOn([e] + t, le) && TransitiveOn([e] + t, le)
    ensures le(t[0], e)
    ensures TotalOn([e] + t[1..], le) && TransitiveOn([e] + t[1..], le)
    ensures Sorted(t, le) ==> Sorted(t[1..], le)
  {
    var all := [e] + t;
    InsertMembers(e, t);
    assert e in all;
    forall x | x in [e] + t[1..] ensures x in all {
      if x != e {
        var k :| 0 <= k < |t[1..]| && t[1..][k] == x;
        assert all[k + 2] == x;
      }
    }
  }

  /** The head of `t` in front of the sorted insertion into the rest. */
  lemma InsertBehind<T>(e: T, t: seq<T>, le: (T, T) -> bool)
    requires Sorted(t, le) && t != [] && le(t[0], e)
    requires Sorted(Insert(e, t[1..], le), le)
    ensures Sorted([t[0]] + Insert(e, t[1..], le), le)
  {
    var t' := t[1..];
    var ins := Insert(e, t', le);
    var r := [t[0]] + ins;
    forall j | 0 <= j < |ins| ensures le(t[0], ins[j]) {
      assert ins[j] in multiset(ins);
      if ins[j] != e {
        assert ins[j] in multiset(t');
        var k :| 0 <= k < |t'| && t'[k] == ins[j];
        assert t'[k] == t[k + 1];
      }
    }
    forall i, j | 0 <= i < j < |r| ensures le(r[i], r[j]) {
      if i == 0 {
        assert r[j] == ins[j - 1];
      } else {
        assert r[i] == ins[i - 1] && r[j] == ins[j - 1];
      }
    }
  }

  /** With a total preorder on the elements, the result of `Sort` is sorted. */
  lemma {:induction false} SortSorted<T>(s: seq<T>, le: (T, T) -> bool)
    requires TotalOn(s, le) && TransitiveOn(s, le)
    ensures Sorted(Sort(s, le), le)
  {
    if s != [] {
      var t := s[1..];
      assert forall x :: x in t ==> x in s;
      SortSorted(t, le);
      var st := Sort(t, le);
      forall x | x in [s[0]] + st ensures x in s {
        if x != s[0] {
          assert x in multiset(st);
          assert x in multiset(t);
        }
      }
      InsertSorted(s[0], st, le);
    }
  }

  lemma {:induction false} InsertFilter<T>(e: T, t: seq<T>, le: (T, T) -> bool, p: T -> bool)
    requires p(e) ==> forall y :: y in t && p(y) ==> le(e, y)
    ensures Filter(Insert(e, t, le), p) == Filter([e] + t, p)
  {
    if t != [] && !le(e, t[0]) {
      InsertFilter(e, t[1..], le, p);
      assert t == [t[0]] + t[1..];
      assert Filter([e] + t, p) == (if p(e) then [e] else []) + Filter(t, p);
      assert Filter([e] + t[1..], p) == (if p(e) then [e] else []) + Filter(t[1..], p);
    }
  }

  /** Stability: within a class of elements that may all precede one another,
      `Sort` keeps the input order. */
  lemma {:induction false} SortStable<T>(s: seq<T>, le: (T, T) -> bool, p: T -> bool)
    requires forall x, y :: x in s && y in s && p(x) && p(y) ==> le(x, y)
    ensures Filter(Sort(s, le), p) == Filter(s, p)
  {
    if s != [] {
      var t := s[1..];
      assert s == [s[0]] + t;
      assert forall x :: x in t ==> x in s;
      SortStable(t, le, p);
      var st := Sort(t, le);
      forall y | y in st && p(y) ensures p(s[0]) ==> le(s[0], y) {
        assert y in multiset(st);
        assert y in multiset(t);
      }
      InsertFilter(s[0], st, le, p);
    }
  }

  /** Sorting a sequence that is already sorted changes nothing. */
  lemma {:induction false} SortOfSorted<T>(s: seq<T>, le: (T, T) -> bool)
    requires Sorted(s, le)
    ensures Sort(s, le) == s
  {
    if s != [] {
      SortOfSorted(s[1..], le);
      assert s == [s[0]] + s[1..];
      if |s| > 1 {
        assert le(s[0], s[1]);
      }
    }
  }
}
