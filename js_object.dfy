/**
 * The order in which a JavaScript object enumerates its own string-keyed
 * properties (`Object.entries`, `Object.keys`, `JSON.stringify`): first the
 * keys that are array indices, in ascending numeric order, then the other
 * keys in the order the properties were created (section 10.1.11.1,
 * OrdinaryOwnPropertyKeys, of ECMA-262).
 */
module JsObject {
  import opened Strings
  import opened Sorting

  /** The largest array index, 2^32 - 2. */
  const MaxArrayIndex: nat := 4294967294

  /** A key that is an array index: the canonical decimal form of an integer
      from 0 to 2^32 - 2 (so "2024" is one and "0123" is not). */
  predicate IsArrayIndex(k: string) {
    |k| >= 1 && (forall i :: 0 <= i < |k| ==> IsDigit(k[i])) && (|k| == 1 || k[0] != '0') &&
    ParseDecimal(k) <= MaxArrayIndex
  }

  function IndexValue(k: string): nat {
    if IsArrayIndex(k) then ParseDecimal(k) else 0
  }

  predicate IndexEntry<V>(e: (string, V)) {
    IsArrayIndex(e.0)
  }

  predicate NamedEntry<V>(e: (string, V)) {
    !IsArrayIndex(e.0)
  }

  predicate ByIndex<V>(a: (string, V), b: (string, V)) {
    IndexValue(a.0) <= IndexValue(b.0)
  }

  /** `Object.entries` of an object whose properties were created in the
      order of `entries`. */
  function EnumerationOrder<V>(entries: seq<(string, V)>): (r: seq<(string, V)>)
    ensures multiset(r) == multiset(entries)
    ensures |r| == |entries|
  {
    FilterPartition(entries, IndexEntry, NamedEntry);
    var r := Sort(Filter(entries, IndexEntry), ByIndex) + Filter(entries, NamedEntry);
    assert |multiset(r)| == |r| && |multiset(entries)| == |entries|;
    r
  }

  /** Array-index keys come first, in ascending numeric order; the other keys
      follow in creation order. */
  lemma EnumerationOrderShape<V>(entries: seq<(string, V)>)
    ensures forall i, j :: 0 <= i < j < |EnumerationOrder(entries)| && IsArrayIndex(EnumerationOrder(entries)[j].0) ==>
              IsArrayIndex(EnumerationOrder(entries)[i].0) &&
              IndexValue(EnumerationOrder(entries)[i].0) <= IndexValue(EnumerationOrder(entries)[j].0)
    ensures Filter(EnumerationOrder(entries), NamedEntry) == Filter(entries, NamedEntry)
  {
    IndexKeysFirst(entries);
    NamedKeysInOrder(entries);
  }

  lemma IndexKeysFirst<V>(entries: seq<(string, V)>)
    ensures forall i, j :: 0 <= i < j < |EnumerationOrder(entries)| && IsArrayIndex(EnumerationOrder(entries)[j].0) ==>
              IsArrayIndex(EnumerationOrder(entries)[i].0) &&
              IndexValue(EnumerationOrder(entries)[i].0) <= IndexValue(EnumerationOrder(entries)[j].0)
  {
    var named := Filter(entries, NamedEntry);
    var sorted := Sort(Filter(entries, IndexEntry), ByIndex);
    var r := sorted + named;
    assert r == EnumerationOrder(entries);
    SortedIndexEntries(entries);
    assert forall k :: 0 <= k < |named| ==> !IsArrayIndex(named[k].0);
    assert forall k :: |sorted| <= k < |r| ==> r[k] == named[k - |sorted|];
    forall i, j | 0 <= i < j < |r| && IsArrayIndex(r[j].0)
      ensures IsArrayIndex(r[i].0) && IndexValue(r[i].0) <= IndexValue(r[j].0)
    {
      assert j < |sorted|;
      assert r[i] == sorted[i] && r[j] == sorted[j];
      assert IndexEntry(sorted[i]);
    }
  }

  lemma NamedKeysInOrder<V>(entries: seq<(string, V)>)
    ensures Filter(EnumerationOrder(entries), NamedEntry) == Filter(entries, NamedEntry)
  {
    var named := Filter(entries, NamedEntry);
    var sorted := Sort(Filter(entries, IndexEntry), ByIndex);
    assert sorted + named == EnumerationOrder(entries);
    SortedIndexEntries(entries);
    FilterAppend(sorted, named, NamedEntry);
    NoneFiltered(sorted, NamedEntry);
    AllFiltered(named, NamedEntry);
  }

  /** Without array-index keys, enumeration follows creation order. */
  lemma EnumerationOrderNamed<V>(entries: seq<(string, V)>)
    requires forall i :: 0 <= i < |entries| ==> !IsArrayIndex(entries[i].0)
    ensures EnumerationOrder(entries) == entries
  {
    NoneFiltered(entries, IndexEntry);
    AllFiltered(entries, NamedEntry);
  }

  lemma SortedIndexEntries<V>(entries: seq<(string, V)>)
    ensures forall k :: 0 <= k < |Sort(Filter(entries, IndexEntry), ByIndex)| ==>
              IndexEntry(Sort(Filter(entries, IndexEntry), ByIndex)[k])
    ensures Sorted(Sort(Filter(entries, IndexEntry), ByIndex), ByIndex)
  {
    var idx := Filter(entries, IndexEntry);
    var sorted := Sort(idx, ByIndex);
    SortSorted(idx, ByIndex);
    forall k | 0 <= k < |sorted| ensures IndexEntry(sorted[k]) {
      SortMembers(idx, ByIndex, sorted[k]);
      var m :| 0 <= m < |idx| && idx[m] == sorted[k];
    }
  }

  /** Enumerating the entries of an object built from an enumeration gives
      that enumeration back. */
  lemma EnumerationOrderIdempotent<V>(entries: seq<(string, V)>)
    ensures EnumerationOrder(EnumerationOrder(entries)) == EnumerationOrder(entries)
  {
    var named := Filter(entries, NamedEntry);
    var sorted := Sort(Filter(entries, IndexEntry), ByIndex);
    var r := sorted + named;
    assert r == EnumerationOrder(entries);
    SortedIndexEntries(entries);
    assert Filter(r, IndexEntry) == sorted by {
      FilterAppend(sorted, named, IndexEntry);
      AllFiltered(sorted, IndexEntry);
      NoneFiltered(named, IndexEntry);
    }
    assert Filter(r, NamedEntry) == named by {
      FilterAppend(sorted, named, NamedEntry);
      NoneFiltered(sorted, NamedEntry);
      AllFiltered(named, NamedEntry);
    }
    SortOfSorted(sorted, ByIndex);
  }
}
