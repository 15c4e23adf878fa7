/**
 * The table view's row processing: the sort state that clicks on a column
 * header move through, the case-insensitive filter, and the comparator the
 * rows are sorted with. A row is a field map; the rendering of a number as
 * text (`String(value)`) is a parameter, and `localeCompare` is replaced by
 * the lexicographic code-point order of the strings.
 */
module DataTableView {
  import opened Optional
  import opened Strings
  import opened Sorting

  datatype Direction = Asc | Desc

  datatype Value = Num(n: real) | Text(s: string)

  type Row = map<string, Value>

  /** The state after a click on the header of column `key`: the sorted
      column goes ascending, then descending, then unsorted; another column
      starts ascending. */
  function NextSort(sortKey: Option<string>, sortDirection: Option<Direction>, key: string):
    (r: (Option<string>, Option<Direction>))
    ensures sortKey == Some(key) && sortDirection == Some(Asc) ==> r == (Some(key), Some(Desc))
    ensures sortKey == Some(key) && sortDirection == Some(Desc) ==> r == (None, None)
    ensures sortKey != Some(key) ==> r == (Some(key), Some(Asc))
  {
    if sortKey == Some(key) then
      match sortDirection
      case Some(Asc) => (sortKey, Some(Desc))
      case Some(Desc) => (None, None)
      case None => (sortKey, sortDirection)
    else (Some(key), Some(Asc))
  }

  /** The sort key is set exactly when the direction is. */
  predicate Consistent(state: (Option<string>, Option<Direction>)) {
    state.0.None? <==> state.1.None?
  }

  lemma NextSortConsistent(sortKey: Option<string>, sortDirection: Option<Direction>, key: string)
    requires Consistent((sortKey, sortDirection))
    ensures Consistent(NextSort(sortKey, sortDirection, key))
  {
  }

  /** Three clicks on the same header, starting unsorted, leave the table
      unsorted again. */
  lemma ThreeClicks(key: string)
    ensures NextSort(None, None, key) == (Some(key), Some(Asc))
    ensures NextSort(Some(key), Some(Asc), key) == (Some(key), Some(Desc))
    ensures NextSort(Some(key), Some(Desc), key) == (None, None)
  {
  }

  /** `String(value)` */
  function Shown(v: Value, numberString: real -> string): string {
    match v
    case Num(n) => numberString(n)
    case Text(s) => s
  }

  /** `item[key]`, `undefined` showing as "undefined" when the row lacks it. */
  function Field(row: Row, key: string): Value {
    if key in row then row[key] else Text("undefined")
  }

  /** Some field of the row, shown and lower-cased, contains the lower-cased
      filter text. */
  predicate RowMatches(row: Row, filterText: string, numberString: real -> string)
    ensures RowMatches(row, filterText, numberString) ==> row != map[]
    ensures filterText == "" ==> (RowMatches(row, filterText, numberString) <==> row != map[])
  {
    EveryFieldContainsEmpty(row, numberString);
    exists k :: k in row && Contains(Lower(Shown(row[k], numberString)), Lower(filterText))
  }

  /** Every shown field contains the empty text, and a non-empty row has a field. */
  lemma EveryFieldContainsEmpty(row: Row, numberString: real -> string)
    ensures row != map[] ==> exists k :: k in row && Contains(Lower(Shown(row[k], numberString)), Lower(""))
  {
    if row != map[] {
      var k :| k in row.Keys;
      assert Lower("") <= Lower(Shown(row[k], numberString))[0..];
    }
  }

  function Matcher(filterText: string, numberString: real -> string): Row -> bool {
    (row: Row) => RowMatches(row, filterText, numberString)
  }

  /** The rows the filter keeps, in their order. */
  function Filtered(data: seq<Row>, filterText: string, numberString: real -> string): (r: seq<Row>)
    ensures filterText == "" ==> r == data
    ensures |r| <= |data|
    ensures forall i :: 0 <= i < |r| ==> r[i] in data && (filterText != "" ==> RowMatches(r[i], filterText, numberString))
  {
    if filterText == "" then data
    else
      FilterFrom(data, Matcher(filterText, numberString));
      Filter(data, Matcher(filterText, numberString))
  }

  /** A row stays exactly when it matches (or the filter is empty); the kept
      rows keep their relative order. */
  lemma FilteredMembers(data: seq<Row>, filterText: string, numberString: real -> string, row: Row)
    ensures row in Filtered(data, filterText, numberString) <==>
              row in data && (filterText == "" || RowMatches(row, filterText, numberString))
  {
    if filterText != "" {
      FilterMembers(data, Matcher(filterText, numberString), row);
    }
  }

  /** The filter keeps the rows' order: the kept rows of a first part come
      before the kept rows of the rest. */
  lemma FilteredOrder(a: seq<Row>, b: seq<Row>, filterText: string, numberString: real -> string)
    ensures Filtered(a + b, filterText, numberString) ==
            Filtered(a, filterText, numberString) + Filtered(b, filterText, numberString)
  {
    if filterText != "" {
      FilterAppend(a, b, Matcher(filterText, numberString));
    }
  }

  /** Lexicographic code-point order, standing in for `localeCompare`. */
  predicate LexLe(a: string, b: string) {
    a == [] || (b != [] && (a[0] < b[0] || (a[0] == b[0] && LexLe(a[1..], b[1..]))))
  }

  lemma {:induction false} LexLeReflexive(a: string)
    ensures LexLe(a, a)
  {
    if a != [] {
      LexLeReflexive(a[1..]);
    }
  }

  /** "`a` may precede `b`": the comparator returns at most 0. Two numbers
      compare by the direction; rows with equal fields compare as 0, so the
      stable sort keeps them in place. */
  predicate MayPrecede(key: string, direction: Direction, numberString: real -> string, a: Row, b: Row)
    ensures Field(a, key).Num? && Field(b, key).Num? ==>
              (MayPrecede(key, direction, numberString, a, b) <==> NumbersInOrder(direction, Field(a, key), Field(b, key)))
    ensures Field(a, key) == Field(b, key) ==> MayPrecede(key, direction, numberString, a, b)
  {
    var x, y := Field(a, key), Field(b, key);
    LexLeReflexive(Shown(x, numberString));
    if x.Num? && y.Num? then (if direction == Asc then x.n <= y.n else y.n <= x.n)
    else if direction == Asc then LexLe(Shown(x, numberString), Shown(y, numberString))
    else LexLe(Shown(y, numberString), Shown(x, numberString))
  }

  function Comparator(key: string, direction: Direction, numberString: real -> string): (Row, Row) -> bool {
    (a: Row, b: Row) => MayPrecede(key, direction, numberString, a, b)
  }

  /** `processedData`: filtered, then stably sorted when a truthy key and a
      direction are set. */
  function Processed(data: seq<Row>, sortKey: Option<string>, sortDirection: Option<Direction>, filterText: string,
                     numberString: real -> string): (r: seq<Row>)
    ensures multiset(r) == multiset(Filtered(data, filterText, numberString))
    ensures !(Truthy(sortKey) && sortDirection.Some?) ==> r == Filtered(data, filterText, numberString)
  {
    var rows := Filtered(data, filterText, numberString);
    if Truthy(sortKey) && sortDirection.Some? then
      Sort(rows, Comparator(sortKey.value, sortDirection.value, numberString))
    else rows
  }

  /** Both values are numbers, in the order of the direction. */
  predicate NumbersInOrder(direction: Direction, x: Value, y: Value) {
    x.Num? && y.Num? && if direction == Asc then x.n <= y.n else y.n <= x.n
  }

  lemma NumericComparator(rows: seq<Row>, key: string, direction: Direction, numberString: real -> string)
    requires forall row :: row in rows ==> Field(row, key).Num?
    ensures TotalOn(rows, Comparator(key, direction, numberString))
    ensures TransitiveOn(rows, Comparator(key, direction, numberString))
    ensures forall a, b :: a in rows && b in rows && Comparator(key, direction, numberString)(a, b) ==>
              NumbersInOrder(direction, Field(a, key), Field(b, key))
  {
  }

  /** On a column that holds a number in every kept row, the rows come out
      non-decreasing for ascending and non-increasing for descending. */
  lemma ProcessedNumericOrder(data: seq<Row>, key: string, direction: Direction, filterText: string,
                              numberString: real -> string)
    requires key != ""
    requires forall row :: row in Filtered(data, filterText, numberString) ==> Field(row, key).Num?
    ensures forall i, j :: 0 <= i < j < |Processed(data, Some(key), Some(direction), filterText, numberString)| ==>
              NumbersInOrder(direction, Field(Processed(data, Some(key), Some(direction), filterText, numberString)[i], key),
                                        Field(Processed(data, Some(key), Some(direction), filterText, numberString)[j], key))
  {
    var rows := Filtered(data, filterText, numberString);
    var le := Comparator(key, direction, numberString);
    NumericComparator(rows, key, direction, numberString);
    SortSorted(rows, le);
    var r := Sort(rows, le);
    assert r == Processed(data, Some(key), Some(direction), filterText, numberString);
    forall i, j | 0 <= i < j < |r| ensures NumbersInOrder(direction, Field(r[i], key), Field(r[j], key)) {
      SortMembers(rows, le, r[i]);
      SortMembers(rows, le, r[j]);
    }
  }

  /** The state of the table's header clicks and filter box. */
  class DataTable {
    var sortKey: Option<string>
    var sortDirection: Option<Direction>
    var filterText: string

    ghost predicate Valid()
      reads this
    {
      Consistent((sortKey, sortDirection))
    }

    constructor()
      ensures Valid()
      ensures sortKey == None && sortDirection == None && filterText == ""
    {
      sortKey := None;
      sortDirection := None;
      filterText := "";
    }

    /** `handleSort` */
    method HandleSort(key: string)
      requires Valid()
      modifies this
      ensures Valid()
      ensures (sortKey, sortDirection) == NextSort(old(sortKey), old(sortDirection), key)
      ensures filterText == old(filterText)
    {
      if sortKey == Some(key) {
        if sortDirection == Some(Asc) {
          sortDirection := Some(Desc);
        } else if sortDirection == Some(Desc) {
          sortKey := None;
          sortDirection := None;
        }
      } else {
        sortKey := Some(key);
        sortDirection := Some(Asc);
      }
    }

    /** The filter box's `onChange`. */
    method SetFilterText(text: string)
      modifies this
      ensures filterText == text && sortKey == old(sortKey) && sortDirection == old(sortDirection)
    {
      filterText := text;
    }

    /** The rows the table renders: a copy of `data`, filtered, then sorted. */
    method ProcessedData(data: seq<Row>, numberString: real -> string) returns (processedData: seq<Row>)
      ensures processedData == Processed(data, sortKey, sortDirection, filterText, numberString)
    {
      processedData := data;
      if filterText != "" {
        processedData := Filter(processedData, Matcher(filterText, numberString));
      }
      if Truthy(sortKey) && sortDirection.Some? {
        processedData := Sort(processedData, Comparator(sortKey.value, sortDirection.value, numberString));
      }
    }
  }
}
