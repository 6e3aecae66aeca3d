/**
  The result table: header list, sorting by one column in either direction
  (a copy of the rows sorted in place), fixed-size pages and the
  Previous/Next page controls. Cell values are integers; a row may lack a
  key, and then, as with JavaScript's `undefined`, neither `<` nor `>`
  holds and the comparator answers 0.
 */
module DataTable {
  import opened Wrappers

  /** A row: its own keys in enumeration order, and the cell under each. */
  datatype Row = Row(keys: seq<string>, cells: map<string, int>)

  /** Keys are distinct and are exactly the keys that have cells. */
  ghost predicate WellFormed(row: Row) {
    && (forall i, j :: 0 <= i < j < |row.keys| ==> row.keys[i] != row.keys[j])
    && (forall k :: k in row.cells <==> k in row.keys)
  }

  /** `row[key]`: the cell, or nothing when the row lacks the key. */
  function Cell(row: Row, key: string): Option<int> {
    if key in row.cells then Some(row.cells[key]) else None
  }

  /** `headers`: the keys of the first row, none for an empty table. */
  function Headers(data: seq<Row>): (r: seq<string>)
    ensures data == [] ==> r == []
    ensures data != [] && WellFormed(data[0]) ==>
      && (forall k :: k in r <==> k in data[0].cells)
      && (forall i, j :: 0 <= i < j < |r| ==> r[i] != r[j])
  {
    if |data| == 0 then [] else data[0].keys
  }

  datatype Direction = Ascending | Descending

  datatype SortConfig = SortConfig(key: string, direction: Direction)

  /** The comparator handed to `Array.prototype.sort`. */
  function Compare(a: Row, b: Row, config: SortConfig): (r: int)
    ensures r != 0 ==>
      Cell(a, config.key).Some? && Cell(b, config.key).Some? && Cell(a, config.key) != Cell(b, config.key)
    ensures -1 <= r <= 1
  {
    var x, y := Cell(a, config.key), Cell(b, config.key);
    if x.Some? && y.Some? && x.value < y.value then
      (if config.direction == Ascending then -1 else 1)
    else if x.Some? && y.Some? && x.value > y.value then
      (if config.direction == Ascending then 1 else -1)
    else 0
  }

  /** Every row has a cell under the key: the comparator is then a total preorder. */
  predicate AllHaveKey(rows: seq<Row>, key: string) {
    forall i :: 0 <= i < |rows| ==> key in rows[i].cells
  }

  /** Non-decreasing on the key for ascending, non-increasing for descending. */
  predicate OrderedBy(rows: seq<Row>, config: SortConfig)
    requires AllHaveKey(rows, config.key)
  {
    forall i, j :: 0 <= i < j < |rows| ==>
      if config.direction == Ascending then rows[i].cells[config.key] <= rows[j].cells[config.key]
      else rows[i].cells[config.key] >= rows[j].cells[config.key]
  }

  /** Inserting x after the sorted rows, moving it left past every row that compares greater. */
  function Insert(sorted: seq<Row>, x: Row, config: SortConfig): (r: seq<Row>)
    ensures |r| == |sorted| + 1
    decreases |sorted|
  {
    if sorted == [] then [x]
    else if Compare(sorted[|sorted| - 1], x, config) > 0 then
      Insert(sorted[..|sorted| - 1], x, config) + [sorted[|sorted| - 1]]
    else sorted + [x]
  }

  /** The stable sort of the rows under the comparator (insertion order). */
  function SortRows(rows: seq<Row>, config: SortConfig): (r: seq<Row>)
    ensures |r| == |rows|
    decreases |rows|
  {
    if rows == [] then []
    else Insert(SortRows(rows[..|rows| - 1], config), rows[|rows| - 1], config)
  }

  /** `sortedData`: the rows as given without a sort configuration, sorted with one. */
  function SortedSpec(data: seq<Row>, config: Option<SortConfig>): (r: seq<Row>)
    ensures config.None? ==> r == data
    ensures multiset(r) == multiset(data)
  {
    if config.None? then data
    else
      SortPermutes(data, config.value);
      SortRows(data, config.value)
  }

  lemma {:induction false} InsertPermutes(sorted: seq<Row>, x: Row, config: SortConfig)
    ensures multiset(Insert(sorted, x, config)) == multiset(sorted) + multiset{x}
    decreases |sorted|
  {
    if sorted != [] && Compare(sorted[|sorted| - 1], x, config) > 0 {
      var init, last := sorted[..|sorted| - 1], sorted[|sorted| - 1];
      InsertPermutes(init, x, config);
      assert sorted == init + [last];
    }
  }

  /** Sorting only rearranges the rows. */
  lemma {:induction false} SortPermutes(rows: seq<Row>, config: SortConfig)
    ensures multiset(SortRows(rows, config)) == multiset(rows)
    decreases |rows|
  {
    if rows != [] {
      var init, last := rows[..|rows| - 1], rows[|rows| - 1];
      var sortedInit := SortRows(init, config);
      assert SortRows(rows, config) == Insert(sortedInit, last, config);
      SortPermutes(init, config);
      InsertPermutes(sortedInit, last, config);
      assert multiset(rows) == multiset(init) + multiset{last} by {
        assert rows == init + [last];
      }
    }
  }

  /** Every pair of rows in order compares at most 0. */
  predicate SortedByCompare(rows: seq<Row>, config: SortConfig) {
    forall i, j :: 0 <= i < j < |rows| ==> Compare(rows[i], rows[j], config) <= 0
  }

  /** Every row compares at most 0 against y. */
  predicate AllAtMost(rows: seq<Row>, y: Row, config: SortConfig) {
    forall i :: 0 <= i < |rows| ==> Compare(rows[i], y, config) <= 0
  }

  /** Among rows that all carry the key, the comparator is transitive. */
  lemma CompareTransitive(x: Row, y: Row, z: Row, config: SortConfig)
    requires config.key in x.cells && config.key in y.cells && config.key in z.cells
    requires Compare(x, y, config) <= 0 && Compare(y, z, config) <= 0
    ensures Compare(x, z, config) <= 0
  {
  }

  lemma {:induction false} InsertHasKey(sorted: seq<Row>, x: Row, config: SortConfig)
    requires AllHaveKey(sorted, config.key) && config.key in x.cells
    ensures AllHaveKey(Insert(sorted, x, config), config.key)
    decreases |sorted|
  {
    if sorted != [] && Compare(sorted[|sorted| - 1], x, config) > 0 {
      var init := sorted[..|sorted| - 1];
      assert AllHaveKey(init, config.key) by {
        forall i | 0 <= i < |init| ensures config.key in init[i].cells {
          assert init[i] == sorted[i];
        }
      }
      InsertHasKey(init, x, config);
    }
  }

  lemma {:induction false} InsertAtMost(sorted: seq<Row>, x: Row, y: Row, config: SortConfig)
    requires AllAtMost(sorted, y, config) && Compare(x, y, config) <= 0
    ensures AllAtMost(Insert(sorted, x, config), y, config)
    decreases |sorted|
  {
    if sorted != [] && Compare(sorted[|sorted| - 1], x, config) > 0 {
      var init := sorted[..|sorted| - 1];
      assert AllAtMost(init, y, config) by {
        forall i | 0 <= i < |init| ensures Compare(init[i], y, config) <= 0 {
          assert init[i] == sorted[i];
        }
      }
      InsertAtMost(init, x, y, config);
    }
  }

  lemma {:induction false} InsertSorted(sorted: seq<Row>, x: Row, config: SortConfig)
    requires AllHaveKey(sorted, config.key) && config.key in x.cells
    requires SortedByCompare(sorted, config)
    ensures SortedByCompare(Insert(sorted, x, config), config)
    decreases |sorted|
  {
    if sorted != [] {
      var init, last := sorted[..|sorted| - 1], sorted[|sorted| - 1];
      assert AllHaveKey(init, config.key) && SortedByCompare(init, config) by {
        forall i | 0 <= i < |init| ensures init[i] == sorted[i] {
        }
      }
      assert AllAtMost(init, last, config) by {
        forall i | 0 <= i < |init| ensures Compare(init[i], last, config) <= 0 {
          assert init[i] == sorted[i];
        }
      }
      if Compare(last, x, config) > 0 {
        InsertSorted(init, x, config);
        assert Compare(x, last, config) <= 0;
        InsertAtMost(init, x, last, config);
      } else {
        forall i | 0 <= i < |sorted| ensures Compare(sorted[i], x, config) <= 0 {
          if i < |sorted| - 1 {
            CompareTransitive(sorted[i], last, x, config);
          }
        }
      }
    }
  }

  /** Among rows carrying the key, sorted by the comparator means ordered on the key. */
  lemma SortedIsOrdered(rows: seq<Row>, config: SortConfig)
    requires AllHaveKey(rows, config.key) && SortedByCompare(rows, config)
    ensures OrderedBy(rows, config)
  {
    forall i, j | 0 <= i < j < |rows| ensures
      if config.direction == Ascending then rows[i].cells[config.key] <= rows[j].cells[config.key]
      else rows[i].cells[config.key] >= rows[j].cells[config.key]
    {
      assert Compare(rows[i], rows[j], config) <= 0;
    }
  }

  lemma {:induction false} SortSorted(rows: seq<Row>, config: SortConfig)
    requires AllHaveKey(rows, config.key)
    ensures AllHaveKey(SortRows(rows, config), config.key)
    ensures SortedByCompare(SortRows(rows, config), config)
    decreases |rows|
  {
    if rows != [] {
      var init, last := rows[..|rows| - 1], rows[|rows| - 1];
      assert AllHaveKey(init, config.key) by {
        forall i | 0 <= i < |init| ensures config.key in init[i].cells {
          assert init[i] == rows[i];
        }
      }
      SortSorted(init, config);
      InsertHasKey(SortRows(init, config), last, config);
      InsertSorted(SortRows(init, config), last, config);
    }
  }

  /** With every row carrying the key, the sorted rows are in the requested order. */
  lemma SortOrdered(rows: seq<Row>, config: SortConfig)
    requires AllHaveKey(rows, config.key)
    ensures AllHaveKey(SortRows(rows, config), config.key)
    ensures OrderedBy(SortRows(rows, config), config)
  {
    SortSorted(rows, config);
    SortedIsOrdered(SortRows(rows, config), config);
  }

  /** The rows whose cell under key is v, in their order. */
  function WithCell(rows: seq<Row>, key: string, v: Option<int>): seq<Row>
    decreases |rows|
  {
    if rows == [] then []
    else
      var last := rows[|rows| - 1];
      WithCell(rows[..|rows| - 1], key, v) + (if Cell(last, key) == v then [last] else [])
  }

  /** Appending one row extends the filtered rows by that row when its cell is v. */
  lemma WithCellSnoc(t: seq<Row>, y: Row, key: string, v: Option<int>)
    ensures WithCell(t + [y], key, v) == WithCell(t, key, v) + (if Cell(y, key) == v then [y] else [])
  {
    assert (t + [y])[..|t|] == t;
  }

  /** Inserting x moves it only past rows with a different cell, so rows with equal cells keep their order. */
  lemma {:induction false} InsertStable(sorted: seq<Row>, x: Row, config: SortConfig, v: Option<int>)
    ensures WithCell(Insert(sorted, x, config), config.key, v) == WithCell(sorted + [x], config.key, v)
    decreases |sorted|
  {
    var k := config.key;
    if sorted != [] && Compare(sorted[|sorted| - 1], x, config) > 0 {
      var init, last := sorted[..|sorted| - 1], sorted[|sorted| - 1];
      InsertStable(init, x, config, v);
      WithCellSnoc(Insert(init, x, config), last, k, v);
      WithCellSnoc(init, x, k, v);
      WithCellSnoc(sorted, x, k, v);
      assert sorted == init + [last];
      // x and last never share v, since their cells differ.
      assert Cell(x, k) != Cell(last, k);
    }
  }

  /**
    Sorting is stable: for every cell value, the rows carrying it appear in
    the sorted rows in the same order as in the input.
   */
  lemma {:induction false} SortStable(rows: seq<Row>, config: SortConfig, v: Option<int>)
    ensures WithCell(SortRows(rows, config), config.key, v) == WithCell(rows, config.key, v)
    decreases |rows|
  {
    if rows != [] {
      var init, last := rows[..|rows| - 1], rows[|rows| - 1];
      SortStable(init, config, v);
      InsertStable(SortRows(init, config), last, config, v);
      WithCellSnoc(SortRows(init, config), last, config.key, v);
      WithCellSnoc(init, last, config.key, v);
      assert rows == init + [last];
    }
  }

  /** `sortedData` over all the cases together: order, permutation, stability, identity without a configuration. */
  lemma SortedSpecProperties(data: seq<Row>, config: Option<SortConfig>)
    ensures multiset(SortedSpec(data, config)) == multiset(data)
    ensures config.None? ==> SortedSpec(data, config) == data
    ensures config.Some? && AllHaveKey(data, config.value.key) ==>
      AllHaveKey(SortedSpec(data, config), config.value.key) && OrderedBy(SortedSpec(data, config), config.value)
    ensures config.Some? ==> forall v :: WithCell(SortedSpec(data, config), config.value.key, v) == WithCell(data, config.value.key, v)
  {
    if config.Some? {
      SortPermutes(data, config.value);
      if AllHaveKey(data, config.value.key) {
        SortOrdered(data, config.value);
      }
      forall v ensures WithCell(SortedSpec(data, config), config.value.key, v) == WithCell(data, config.value.key, v) {
        SortStable(data, config.value, v);
      }
    }
  }

  /**
    Where Insert puts x: after the longest suffix of rows that compare
    greater than x, which is the position a split at j describes.
   */
  lemma {:induction false} InsertAt(s: seq<Row>, x: Row, j: nat, config: SortConfig)
    requires j <= |s|
    requires j == 0 || Compare(s[j - 1], x, config) <= 0
    requires forall k :: j <= k < |s| ==> Compare(s[k], x, config) > 0
    ensures Insert(s, x, config) == s[..j] + [x] + s[j..]
    decreases |s|
  {
    if |s| > j {
      var init := s[..|s| - 1];
      InsertAt(init, x, j, config);
      assert init[..j] == s[..j];
      assert init[j..] + [s[|s| - 1]] == s[j..];
    } else {
      assert s[..j] == s;
    }
  }

  /**
    The inner loop of the insertion sort: rows that compare greater than x
    move one place right, leaving a gap at the returned position.
   */
  method ShiftGreater(a: array<Row>, i: nat, x: Row, config: SortConfig) returns (j: nat)
    requires i < a.Length
    modifies a
    ensures j <= i
    ensures forall k :: 0 <= k < j ==> a[k] == old(a[k])
    ensures forall k :: j < k <= i ==> a[k] == old(a[k - 1])
    ensures forall k :: i < k < a.Length ==> a[k] == old(a[k])
    ensures j == 0 || Compare(old(a[j - 1]), x, config) <= 0
    ensures forall k :: j <= k < i ==> Compare(old(a[k]), x, config) > 0
  {
    j := i;
    while j > 0 && Compare(a[j - 1], x, config) > 0
      invariant 0 <= j <= i
      invariant forall k :: 0 <= k < j ==> a[k] == old(a[k])
      invariant forall k :: j < k <= i ==> a[k] == old(a[k - 1])
      invariant forall k :: i < k < a.Length ==> a[k] == old(a[k])
      invariant forall k :: j <= k < i ==> Compare(old(a[k]), x, config) > 0
    {
      a[j] := a[j - 1];
      j := j - 1;
    }
  }

  /** One step of the insertion sort: a[i] moves into the sorted a[..i]. */
  method InsertInPlace(a: array<Row>, i: nat, config: SortConfig)
    requires i < a.Length
    modifies a
    ensures a[..i + 1] == Insert(old(a[..i]), old(a[i]), config)
    ensures a[i + 1..] == old(a[i + 1..])
  {
    ghost var s := a[..i];
    ghost var rest := a[i + 1..];
    var x := a[i];
    var j := ShiftGreater(a, i, x, config);
    a[j] := x;
    InsertAt(s, x, j, config);
    ghost var r := s[..j] + [x] + s[j..];
    assert a[..i + 1] == r by {
      forall k | 0 <= k <= i ensures a[k] == r[k] {
        if k < j { assert r[k] == s[k]; }
        else if k > j { assert r[k] == s[k - 1]; }
      }
    }
    assert a[i + 1..] == rest;
  }

  /** `Array.prototype.sort` with the comparator, as an in-place insertion sort. */
  method SortInPlace(a: array<Row>, config: SortConfig)
    modifies a
    ensures a[..] == SortRows(old(a[..]), config)
  {
    ghost var input := a[..];
    var i := 0;
    while i < a.Length
      invariant 0 <= i <= a.Length
      invariant a[..i] == SortRows(input[..i], config)
      invariant a[i..] == input[i..]
    {
      assert a[i] == input[i];
      InsertInPlace(a, i, config);
      assert input[..i + 1][..i] == input[..i];
      i := i + 1;
    }
    assert input[..a.Length] == input;
  }

  /** `sortedData`: a copy of the rows, sorted in place when a configuration is set. */
  method SortedData(data: seq<Row>, config: Option<SortConfig>) returns (r: seq<Row>)
    ensures r == SortedSpec(data, config)
  {
    var copy := new Row[|data|](i requires 0 <= i < |data| => data[i]);
    assert copy[..] == data;
    if config.Some? {
      SortInPlace(copy, config.value);
    }
    r := copy[..];
  }

  const RowsPerPage: nat := 10

  function Min(a: int, b: int): int {
    if a <= b then a else b
  }

  function Max(a: int, b: int): int {
    if a >= b then a else b
  }

  /** `Array.prototype.slice(start, end)`: a negative bound counts from the end, and both are clamped to the sequence. */
  function Slice<T>(s: seq<T>, start: int, end: int): (r: seq<T>)
    ensures 0 <= start <= end <= |s| ==> r == s[start..end]
    ensures 0 <= end <= start ==> r == []
    ensures exists i, j :: 0 <= i <= j <= |s| && r == s[i..j]
  {
    var n := |s|;
    var from := if start < 0 then Max(n + start, 0) else Min(start, n);
    var to := if end < 0 then Max(n + end, 0) else Min(end, n);
    if from < to then
      assert 0 <= from <= to <= n;
      s[from..to]
    else
      assert s[0..0] == [];
      []
  }

  /** `paginatedData`: the rows of one page; page p (from 1) is rows (p - 1) * 10 up to p * 10. */
  function PageRows(sorted: seq<Row>, page: int): (r: seq<Row>)
    ensures |r| <= RowsPerPage
    ensures page >= 1 ==>
      r == sorted[Min((page - 1) * RowsPerPage, |sorted|)..Min(page * RowsPerPage, |sorted|)]
  {
    var startIndex := (page - 1) * RowsPerPage;
    Slice(sorted, startIndex, startIndex + RowsPerPage)
  }

  /** `totalPages`: Math.ceil(n / 10), the fewest pages of 10 that hold n rows. */
  function TotalPages(n: nat): (r: nat)
    ensures r * RowsPerPage >= n
    ensures r > 0 ==> (r - 1) * RowsPerPage < n
    ensures r == 0 <==> n == 0
  {
    (n + RowsPerPage - 1) / RowsPerPage
  }

  /** Pages 1 to k, one after the other. */
  function PagesUpTo(sorted: seq<Row>, k: nat): seq<Row> {
    if k == 0 then [] else PagesUpTo(sorted, k - 1) + PageRows(sorted, k)
  }

  /** The first k pages are the first 10 * k rows (or all of them). */
  lemma {:induction false} PagesUpToPrefix(sorted: seq<Row>, k: nat)
    ensures PagesUpTo(sorted, k) == sorted[..Min(k * RowsPerPage, |sorted|)]
  {
    if k > 0 {
      PagesUpToPrefix(sorted, k - 1);
      var lo, hi := Min((k - 1) * RowsPerPage, |sorted|), Min(k * RowsPerPage, |sorted|);
      assert sorted[..lo] + sorted[lo..hi] == sorted[..hi];
    }
  }

  /** Concatenating pages 1 to totalPages gives back every row, in order. */
  lemma PagesCover(sorted: seq<Row>)
    ensures PagesUpTo(sorted, TotalPages(|sorted|)) == sorted
  {
    PagesUpToPrefix(sorted, TotalPages(|sorted|));
  }

  /** Row i is shown on page i / 10 + 1, at position i % 10. */
  lemma RowOnItsPage(sorted: seq<Row>, i: nat)
    requires i < |sorted|
    ensures i / RowsPerPage + 1 <= TotalPages(|sorted|)
    ensures i % RowsPerPage < |PageRows(sorted, i / RowsPerPage + 1)|
    ensures PageRows(sorted, i / RowsPerPage + 1)[i % RowsPerPage] == sorted[i]
  {
    var p := i / RowsPerPage + 1;
    assert (p - 1) * RowsPerPage + i % RowsPerPage == i;
  }

  /** `requestSort`: descending exactly when the same key is currently ascending, ascending otherwise. */
  function NextSortConfig(current: Option<SortConfig>, key: string): (r: SortConfig)
    ensures r.key == key
    ensures r.direction == Descending <==> current == Some(SortConfig(key, Ascending))
  {
    var direction :=
      if current.Some? && current.value.key == key && current.value.direction == Ascending
      then Descending else Ascending;
    SortConfig(key, direction)
  }

  /** Repeated clicks on one header alternate the direction. */
  lemma SortClicksAlternate(current: Option<SortConfig>, key: string)
    ensures NextSortConfig(Some(NextSortConfig(current, key)), key).direction
      != NextSortConfig(current, key).direction
  {
  }

  /** What the component renders: a notice for no data, or one page of the table. */
  datatype TableRender =
    | NoData
    | Table(headers: seq<string>, rows: seq<Row>, page: int, totalPages: nat, totalRows: nat)

  /** The table component: its rows, and the sort and page state it keeps. */
  class DataTableView {
    const data: seq<Row>
    var sortConfig: Option<SortConfig>
    var currentPage: int

    /** The page is at least 1 and, when there are rows, at most the page count. */
    ghost predicate Valid()
      reads this
    {
      1 <= currentPage && (data != [] ==> currentPage <= TotalPages(|data|))
    }

    constructor (data: seq<Row>)
      ensures Valid()
      ensures this.data == data && sortConfig == None && currentPage == 1
    {
      this.data := data;
      sortConfig := None;
      currentPage := 1;
    }

    /** A click on a header. */
    method RequestSort(key: string)
      modifies this`sortConfig
      ensures sortConfig == Some(NextSortConfig(old(sortConfig), key))
    {
      var direction := Ascending;
      if sortConfig.Some? && sortConfig.value.key == key && sortConfig.value.direction == Ascending {
        direction := Descending;
      }
      sortConfig := Some(SortConfig(key, direction));
    }

    /** The Previous button: one page back, never below 1. */
    method PreviousPage()
      requires Valid()
      modifies this`currentPage
      ensures Valid()
      ensures currentPage == Max(1, old(currentPage) - 1)
    {
      currentPage := Max(1, currentPage - 1);
    }

    /** The Next button, shown only with rows: one page on, never past the last page. */
    method NextPage()
      requires Valid() && data != []
      modifies this`currentPage
      ensures Valid()
      ensures currentPage == Min(TotalPages(|data|), old(currentPage) + 1)
    {
      currentPage := Min(TotalPages(|data|), currentPage + 1);
    }

    /** One render: the notice when there are no rows, otherwise the headers and the current page of the sorted rows. */
    method Render() returns (v: TableRender)
      ensures v.NoData? <==> data == []
      ensures v.Table? ==>
        && v.headers == Headers(data)
        && v.rows == PageRows(SortedSpec(data, sortConfig), currentPage)
        && v.page == currentPage
        && v.totalPages == TotalPages(|data|)
        && v.totalRows == |data|
    {
      var sorted := SortedData(data, sortConfig);
      if |data| == 0 {
        return NoData;
      }
      v := Table(Headers(data), PageRows(sorted, currentPage), currentPage, TotalPages(|sorted|), |sorted|);
    }
  }
}
