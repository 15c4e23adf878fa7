/**
 * Counting occurrences in first-seen order — what a JavaScript counter
 * object filled in a `forEach`, and Python's `Counter`, hold — and ranking
 * the entries by count: `Object.entries(f).sort((a, b) => b[1] - a[1])
 * .slice(0, n)` and `Counter.most_common(n)`, both stable.
 */
module Counting {
  import opened Sorting

  /** Occurrences of `x` in `s`. */
  function Count<T(==)>(s: seq<T>, x: T): (n: nat)
    ensures n <= |s|
    ensures n > 0 <==> x in s
  {
    if s == [] then 0
    else
      assert s == s[..|s| - 1] + [s[|s| - 1]];
      Count(s[..|s| - 1], x) + (if s[|s| - 1] == x then 1 else 0)
  }

  lemma CountAppend<T>(s: seq<T>, y: T, x: T)
    ensures Count(s + [y], x) == Count(s, x) + (if y == x then 1 else 0)
  {
    assert (s + [y])[..|s + [y]| - 1] == s;
  }

  predicate AllDistinct<T(==)>(s: seq<T>) {
    forall i, j :: 0 <= i < j < |s| ==> s[i] != s[j]
  }

  /** Appending an element not yet present keeps a sequence free of duplicates. */
  lemma DistinctAppend<T>(s: seq<T>, x: T)
    requires AllDistinct(s) && x !in s
    ensures AllDistinct(s + [x])
  {
  }

  /** The distinct elements of `s`, in the order they are first seen. */
  function Distinct<T(==)>(s: seq<T>): (d: seq<T>)
    ensures AllDistinct(d)
    ensures forall i :: 0 <= i < |d| ==> d[i] in s
    ensures forall i :: 0 <= i < |s| ==> s[i] in d
  {
    if s == [] then []
    else
      var init := s[..|s| - 1];
      var last := s[|s| - 1];
      assert s == init + [last];
      if last in init then Distinct(init) else Distinct(init) + [last]
  }

  lemma DistinctMembers<T>(s: seq<T>, x: T)
    ensures x in Distinct(s) <==> x in s
  {
  }

  lemma DistinctMembersAll<T>(s: seq<T>)
    ensures forall x :: x in Distinct(s) <==> x in s
  {
    forall x ensures x in Distinct(s) <==> x in s {
      DistinctMembers(s, x);
    }
  }

  function Keys<T>(entries: seq<(T, nat)>): (ks: seq<T>)
    ensures |ks| == |entries|
    ensures forall i :: 0 <= i < |entries| ==> ks[i] == entries[i].0
  {
    seq(|entries|, i requires 0 <= i < |entries| => entries[i].0)
  }

  /** The `forEach` that fills a counter object, `f[w] = (f[w] || 0) + 1`:
      `order` is the order in which keys were created. */
  method CountOccurrences<T(==)>(s: seq<T>) returns (order: seq<T>, counts: map<T, nat>)
    ensures order == Distinct(s)
    ensures forall k :: k in counts <==> k in order
    ensures forall k :: k in counts ==> counts[k] == Count(s, k)
  {
    counts := map[];
    order := [];
    var i := 0;
    ghost var seen: seq<T> := [];
    while i < |s|
      invariant 0 <= i <= |s| && seen == s[..i]
      invariant Counted(seen, order, counts)
    {
      ghost var order0, counts0 := order, counts;
      var w := s[i];
      if w !in counts {
        order := order + [w];
      }
      counts := counts[w := (if w in counts then counts[w] else 0) + 1];
      CountStep(seen, w, order0, counts0, order, counts);
      seen := seen + [w];
      i := i + 1;
    }
    assert s[..i] == s;
  }

  /** The counter object after a `forEach` over `t`. */
  ghost predicate Counted<T>(t: seq<T>, order: seq<T>, counts: map<T, nat>) {
    order == Distinct(t) &&
    (forall k :: k in order ==> k in counts) &&
    (forall k :: k in counts ==> k in order && counts[k] == Count(t, k))
  }

  lemma DistinctSnoc<T>(t: seq<T>, w: T)
    ensures Distinct(t + [w]) == if w in t then Distinct(t) else Distinct(t) + [w]
  {
    assert (t + [w])[..|t|] == t;
  }

  /** One step of the `forEach`: `w` is counted once more, and created when
      it is new. */
  lemma CountStep<T>(t: seq<T>, w: T, order: seq<T>, counts: map<T, nat>,
                     order': seq<T>, counts': map<T, nat>)
    requires Counted(t, order, counts)
    requires counts' == counts[w := (if w in counts then counts[w] else 0) + 1]
    requires order' == if w in counts then order else order + [w]
    ensures Counted(t + [w], order', counts')
  {
    DistinctSnoc(t, w);
    DistinctMembers(t, w);
    forall k | k in counts' ensures k in order' && counts'[k] == Count(t + [w], k) {
      CountAppend(t, w, k);
    }
  }

  /** The counter of `s`: one entry per distinct element, first-seen order. */
  function Tally<T(==)>(s: seq<T>): (t: seq<(T, nat)>)
    ensures Keys(t) == Distinct(s)
    ensures forall i :: 0 <= i < |t| ==> t[i].1 == Count(s, t[i].0) && t[i].1 >= 1
  {
    var d := Distinct(s);
    seq(|d|, i requires 0 <= i < |d| => (d[i], Count(s, d[i])))
  }

  /** The sum of the counts of `entries`. */
  function TotalCount<T>(entries: seq<(T, nat)>): nat {
    if entries == [] then 0 else entries[0].1 + TotalCount(entries[1..])
  }

  /** Sum over `keys` of the occurrences of each key in `s`. */
  function CountOver<T(==)>(keys: seq<T>, s: seq<T>): nat {
    if keys == [] then 0 else Count(s, keys[0]) + CountOver(keys[1..], s)
  }

  lemma {:induction false} CountOverAppend<T>(keys: seq<T>, s: seq<T>, y: T)
    requires AllDistinct(keys)
    ensures CountOver(keys, s + [y]) == CountOver(keys, s) + (if y in keys then 1 else 0)
  {
    if keys != [] {
      CountAppend(s, y, keys[0]);
      assert AllDistinct(keys[1..]) by {
        forall i, j | 0 <= i < j < |keys[1..]| ensures keys[1..][i] != keys[1..][j] {
          assert keys[1..][i] == keys[i + 1] && keys[1..][j] == keys[j + 1];
        }
      }
      CountOverAppend(keys[1..], s, y);
      assert keys == [keys[0]] + keys[1..];
      assert y in keys[1..] ==> y != keys[0] by {
        if y in keys[1..] {
          var j :| 0 <= j < |keys[1..]| && keys[1..][j] == y;
          assert keys[j + 1] == y;
        }
      }
    }
  }

  lemma {:induction false} CountOverSnoc<T>(keys: seq<T>, s: seq<T>, x: T)
    ensures CountOver(keys + [x], s) == CountOver(keys, s) + Count(s, x)
  {
    if keys == [] {
      assert keys + [x] == [x];
    } else {
      CountOverSnoc(keys[1..], s, x);
      assert (keys + [x])[1..] == keys[1..] + [x];
    }
  }

  /** Every occurrence is counted exactly once over the distinct elements. */
  lemma {:induction false} CountOverDistinct<T>(s: seq<T>)
    ensures CountOver(Distinct(s), s) == |s|
  {
    if s != [] {
      var init := s[..|s| - 1];
      var last := s[|s| - 1];
      assert s == init + [last];
      CountOverDistinct(init);
      CountOverAppend(Distinct(init), init, last);
      if last !in init {
        CountOverSnoc(Distinct(init), s, last);
        assert Count(s, last) == 1 by {
          CountAppend(init, last, last);
        }
      }
    }
  }

  lemma {:induction false} TotalCountIsCountOver<T>(entries: seq<(T, nat)>, s: seq<T>)
    requires forall i :: 0 <= i < |entries| ==> entries[i].1 == Count(s, entries[i].0)
    ensures TotalCount(entries) == CountOver(Keys(entries), s)
  {
    if entries != [] {
      TotalCountIsCountOver(entries[1..], s);
      assert Keys(entries)[1..] == Keys(entries[1..]);
    }
  }

  /** The counts of a counter add up to the number of elements counted. */
  lemma TallyTotal<T>(s: seq<T>)
    ensures TotalCount(Tally(s)) == |s|
  {
    TotalCountIsCountOver(Tally(s), s);
    CountOverDistinct(s);
  }

  lemma {:induction false} TotalCountAppend<T>(a: seq<(T, nat)>, b: seq<(T, nat)>)
    ensures TotalCount(a + b) == TotalCount(a) + TotalCount(b)
  {
    if a == [] {
      assert a + b == b;
    } else {
      TotalCountAppend(a[1..], b);
      assert (a + b)[1..] == a[1..] + b;
    }
  }

  /** Reordering entries does not change the sum of their counts. */
  lemma {:induction false} TotalCountPermutation<T>(a: seq<(T, nat)>, b: seq<(T, nat)>)
    requires multiset(a) == multiset(b)
    ensures TotalCount(a) == TotalCount(b)
    decreases |a|
  {
    if a != [] {
      var x := a[0];
      assert x in multiset(b);
      var k :| 0 <= k < |b| && b[k] == x;
      RemoveAt(b, k);
      TailPermutation(a, b, k);
      TotalCountPermutation(a[1..], b[..k] + b[k + 1..]);
    }
  }

  /** Taking the same entry out of two permutations leaves two permutations. */
  lemma TailPermutation<T>(a: seq<(T, nat)>, b: seq<(T, nat)>, k: nat)
    requires a != [] && multiset(a) == multiset(b)
    requires k < |b| && b[k] == a[0]
    requires multiset(b[..k] + b[k + 1..]) == multiset(b) - multiset{b[k]}
    ensures multiset(a[1..]) == multiset(b[..k] + b[k + 1..])
  {
    assert a == [a[0]] + a[1..];
  }

  /** Taking the entry at `k` out of `b`. */
  lemma RemoveAt<T>(b: seq<(T, nat)>, k: nat)
    requires k < |b|
    ensures multiset(b[..k] + b[k + 1..]) == multiset(b) - multiset{b[k]}
    ensures TotalCount(b) == b[k].1 + TotalCount(b[..k] + b[k + 1..])
  {
    var pre, x, post := b[..k], b[k], b[k + 1..];
    SplitAt(b, k);
    RemoveAtMultiset(pre, x, post);
    RemoveAtTotal(pre, x, post);
  }

  lemma SplitAt<T>(b: seq<T>, k: nat)
    requires k < |b|
    ensures b == b[..k] + ([b[k]] + b[k + 1..])
  {
    assert b[k..] == [b[k]] + b[k + 1..];
    assert b == b[..k] + b[k..];
  }

  lemma RemoveAtMultiset<T>(pre: seq<T>, x: T, post: seq<T>)
    ensures multiset(pre + post) == multiset(pre + ([x] + post)) - multiset{x}
  {
  }

  lemma RemoveAtTotal<T>(pre: seq<(T, nat)>, x: (T, nat), post: seq<(T, nat)>)
    ensures TotalCount(pre + ([x] + post)) == x.1 + TotalCount(pre + post)
  {
    TotalCountAppend(pre, [x] + post);
    TotalCountAppend(pre, post);
    assert ([x] + post)[1..] == post;
  }

  /** Where an entry of `a` sits in a permutation `b` of it. */
  lemma PermutedIndex<T>(a: seq<T>, b: seq<T>, k: nat) returns (m: nat)
    requires multiset(a) == multiset(b) && k < |a|
    ensures m < |b| && b[m] == a[k]
  {
    assert a[k] in multiset(b);
    m :| m < |b| && b[m] == a[k];
  }

  /** The "may precede" relation of the comparator `(a, b) => b[1] - a[1]`:
      a larger or equal count may come first. */
  predicate ByCount<T>(a: (T, nat), b: (T, nat)) {
    a.1 >= b.1
  }

  function HasCount<T>(c: nat): ((T, nat)) -> bool {
    (e: (T, nat)) => e.1 == c
  }

  /** The `n` entries with the largest counts, ties in their original order. */
  function Ranked<T>(entries: seq<(T, nat)>, n: nat): (r: seq<(T, nat)>)
    ensures |r| == if |entries| <= n then |entries| else n
    ensures forall e :: e in r ==> e in entries
  {
    var sorted := Sort(entries, ByCount);
    var r := Take(sorted, n);
    assert forall i :: 0 <= i < |r| ==> r[i] == sorted[i];
    forall e | e in r ensures e in entries {
      SortMembers(entries, ByCount, e);
    }
    r
  }

  /** `Counter(s).most_common(n)`: at most `n` of the counter's entries. */
  function MostCommon<T(==)>(s: seq<T>, n: nat): (r: seq<(T, nat)>)
    ensures |r| <= n && |r| <= |Tally(s)|
    ensures forall e :: e in r ==> e in Tally(s)
  {
    Ranked(Tally(s), n)
  }

  lemma {:induction false} FilterOfPrefix<T>(a: seq<T>, b: seq<T>, p: T -> bool)
    requires a <= b
    ensures Filter(a, p) <= Filter(b, p)
  {
    assert b == a + b[|a|..];
    FilterAppend(a, b[|a|..], p);
  }

  /** What ranking promises: at most `n` entries, taken from `entries`, in
      non-increasing count order; anything left out has a count no larger than
      the last kept one; and entries of equal count keep their original order
      (those kept are the first ones of that count). */
  lemma RankedProperties<T>(entries: seq<(T, nat)>, n: nat)
    ensures |Ranked(entries, n)| == if |entries| <= n then |entries| else n
    ensures forall i, j :: 0 <= i < j < |Ranked(entries, n)| ==>
              Ranked(entries, n)[i].1 >= Ranked(entries, n)[j].1
    ensures forall e :: e in Ranked(entries, n) ==> e in entries
    ensures forall e :: e in entries && e !in Ranked(entries, n) ==>
              |Ranked(entries, n)| == n && (n > 0 ==> e.1 <= Ranked(entries, n)[n - 1].1)
    ensures forall c: nat :: Filter(Ranked(entries, n), HasCount(c)) <= Filter(entries, HasCount(c))
  {
    var r := Ranked(entries, n);
    SortSorted(entries, ByCount);
    forall e | e in r ensures e in entries {
      SortMembers(entries, ByCount, e);
    }
    forall e | e in entries && e !in r
      ensures |r| == n && (n > 0 ==> e.1 <= r[n - 1].1)
    {
      RankedLeftOut(entries, n, e);
    }
    forall c: nat ensures Filter(r, HasCount(c)) <= Filter(entries, HasCount(c)) {
      RankedTies(entries, n, c);
    }
  }

  /** Ties keep their order: the kept entries of count `c` are the first ones. */
  lemma RankedTies<T>(entries: seq<(T, nat)>, n: nat, c: nat)
    ensures Filter(Ranked(entries, n), HasCount(c)) <= Filter(entries, HasCount(c))
  {
    SortStable(entries, ByCount, HasCount(c));
    FilterOfPrefix(Ranked(entries, n), Sort(entries, ByCount), HasCount(c));
  }

  lemma {:induction false} DistinctCons<T>(x: T, t: seq<T>)
    ensures AllDistinct([x] + t) <==> x !in t && AllDistinct(t)
  {
    var s := [x] + t;
    assert forall k :: 0 <= k < |t| ==> s[k + 1] == t[k];
    if x !in t && AllDistinct(t) {
      forall i, j | 0 <= i < j < |s| ensures s[i] != s[j] {
        if i == 0 {
          assert s[j] == t[j - 1];
        } else {
          assert s[i] == t[i - 1] && s[j] == t[j - 1];
        }
      }
    }
    if AllDistinct(s) {
      forall i, j | 0 <= i < j < |t| ensures t[i] != t[j] {
        assert s[i + 1] != s[j + 1];
      }
      forall k | 0 <= k < |t| ensures t[k] != x {
        assert s[0] != s[k + 1];
      }
    }
  }

  /** Filtering keeps distinct elements distinct. */
  lemma {:induction false} FilterDistinct<T>(s: seq<T>, p: T -> bool)
    requires AllDistinct(s)
    ensures AllDistinct(Filter(s, p))
  {
    if s != [] {
      assert s == [s[0]] + s[1..];
      DistinctCons(s[0], s[1..]);
      FilterDistinct(s[1..], p);
      if p(s[0]) {
        FilterMembers(s[1..], p, s[0]);
        DistinctCons(s[0], Filter(s[1..], p));
      }
    }
  }

  lemma {:induction false} DistinctMultiplicity<T>(s: seq<T>, x: T)
    requires AllDistinct(s)
    ensures multiset(s)[x] <= 1
  {
    if s != [] {
      assert s == [s[0]] + s[1..];
      DistinctCons(s[0], s[1..]);
      DistinctMultiplicity(s[1..], x);
      assert multiset(s) == multiset{s[0]} + multiset(s[1..]);
      if x == s[0] {
        assert x !in multiset(s[1..]);
      }
    }
  }

  lemma RepeatedMultiplicity<T>(s: seq<T>, i: nat, j: nat)
    requires i < j < |s| && s[i] == s[j]
    ensures multiset(s)[s[i]] >= 2
  {
    assert s == s[..i] + [s[i]] + s[i + 1..j] + [s[j]] + s[j + 1..];
  }

  /** A permutation of distinct elements has distinct elements. */
  lemma PermutationDistinct<T>(a: seq<T>, b: seq<T>)
    requires multiset(a) == multiset(b) && AllDistinct(a)
    ensures AllDistinct(b)
  {
    forall i, j | 0 <= i < j < |b| ensures b[i] != b[j] {
      if b[i] == b[j] {
        RepeatedMultiplicity(b, i, j);
        DistinctMultiplicity(a, b[i]);
      }
    }
  }

  /** Ranking distinct entries repeats none of them. */
  lemma RankedDistinct<T>(entries: seq<(T, nat)>, n: nat)
    requires AllDistinct(entries)
    ensures AllDistinct(Ranked(entries, n))
  {
    var sorted := Sort(entries, ByCount);
    var r := Ranked(entries, n);
    forall i, j | 0 <= i < j < |r| ensures r[i] != r[j] {
      if r[i] == r[j] {
        assert sorted[i] == r[i] && sorted[j] == r[j];
        RepeatedMultiplicity(sorted, i, j);
        DistinctMultiplicity(entries, r[i]);
      }
    }
  }

  /** An entry left out of a ranking counts no more than the last kept one. */
  lemma RankedLeftOut<T>(entries: seq<(T, nat)>, n: nat, e: (T, nat))
    requires e in entries && e !in Ranked(entries, n)
    ensures |Ranked(entries, n)| == n && (n > 0 ==> e.1 <= Ranked(entries, n)[n - 1].1)
  {
    var sorted := Sort(entries, ByCount);
    SortSorted(entries, ByCount);
    SortMembers(entries, ByCount, e);
    var k :| 0 <= k < |sorted| && sorted[k] == e;
    assert k >= n;
    if n > 0 {
      assert ByCount(sorted[n - 1], sorted[k]);
    }
  }

  /** The entries of a counter have distinct keys, so they are distinct. */
  lemma DistinctKeysDistinctEntries<T>(entries: seq<(T, nat)>)
    requires AllDistinct(Keys(entries))
    ensures AllDistinct(entries)
  {
    forall i, j | 0 <= i < j < |entries| ensures entries[i] != entries[j] {
      assert Keys(entries)[i] != Keys(entries)[j];
    }
  }

  /** Each entry of `most_common(n)` is an element of `s` with its number of
      occurrences; there are at most `n` of them, by non-increasing count. */
  lemma MostCommonCounts<T>(s: seq<T>, n: nat)
    ensures |MostCommon(s, n)| <= n
    ensures forall i :: 0 <= i < |MostCommon(s, n)| ==>
              MostCommon(s, n)[i].0 in s && MostCommon(s, n)[i].1 == Count(s, MostCommon(s, n)[i].0) &&
              MostCommon(s, n)[i].1 >= 1
    ensures forall i, j :: 0 <= i < j < |MostCommon(s, n)| ==> MostCommon(s, n)[i].1 >= MostCommon(s, n)[j].1
  {
    var t := Tally(s);
    var r := MostCommon(s, n);
    RankedProperties(t, n);
    forall i | 0 <= i < |r|
      ensures r[i].0 in s && r[i].1 == Count(s, r[i].0) && r[i].1 >= 1
    {
      assert r[i] in r;
      var k :| 0 <= k < |t| && t[k] == r[i];
      assert Keys(t)[k] == r[i].0;
      DistinctMembers(s, r[i].0);
    }
  }

  /** No element appears twice among the keys of `most_common(n)`. */
  lemma MostCommonDistinct<T>(s: seq<T>, n: nat)
    ensures AllDistinct(Keys(MostCommon(s, n)))
  {
    var t := Tally(s);
    var r := MostCommon(s, n);
    MostCommonCounts(s, n);
    DistinctKeysDistinctEntries(t);
    RankedDistinct(t, n);
    forall i, j | 0 <= i < j < |r| ensures Keys(r)[i] != Keys(r)[j] {
      assert r[i] != r[j];
    }
  }

  /** An element of `s` that `most_common(n)` leaves out occurs no more often
      than the last element kept, and then `n` elements were kept. */
  lemma MostCommonLeftOut<T>(s: seq<T>, n: nat, x: T)
    requires x in s && x !in Keys(MostCommon(s, n))
    ensures |MostCommon(s, n)| == n
    ensures n > 0 ==> Count(s, x) <= MostCommon(s, n)[n - 1].1
  {
    var t := Tally(s);
    var r := MostCommon(s, n);
    DistinctMembers(s, x);
    var k :| 0 <= k < |t| && Keys(t)[k] == x;
    assert t[k] == (x, Count(s, x));
    forall i | 0 <= i < |r| ensures r[i] != t[k] {
      assert Keys(r)[i] == r[i].0;
    }
    RankedLeftOut(t, n, t[k]);
  }

  /** A non-empty `s` has a non-empty `most_common(n)` for every positive `n`. */
  lemma MostCommonNonEmpty<T>(s: seq<T>, n: nat)
    ensures |MostCommon(s, n)| == 0 <==> s == [] || n == 0
  {
    RankedProperties(Tally(s), n);
    if s != [] {
      assert s[0] in Distinct(s);
    }
  }
}
