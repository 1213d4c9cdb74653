/** Reads over a list of records, as the in-memory fallback store and the SQLite client
    compute them with `find`, `findIndex`, `slice` and a comparator `sort` on a copy. */
module Tables {
  import opened Values

  /** Row j is the first whose `column` is strictly equal (`===`) to `value`. */
  predicate FirstMatch(rows: seq<Record>, column: string, value: Value, j: int) {
    0 <= j < |rows| && Get(rows[j], column) == value &&
    forall k :: 0 <= k < j ==> Get(rows[k], column) != value
  }

  /** `rows.findIndex(item => item[column] === value)` */
  function FindIndex(rows: seq<Record>, column: string, value: Value): (i: int)
    ensures -1 <= i < |rows|
    ensures i >= 0 ==> FirstMatch(rows, column, value, i)
    ensures i == -1 ==> forall j :: 0 <= j < |rows| ==> Get(rows[j], column) != value
  {
    if rows == [] then -1
    else if Get(rows[0], column) == value then 0
    else
      var k := FindIndex(rows[1..], column, value);
      assert forall j :: 1 <= j < |rows| ==> rows[j] == rows[1..][j - 1];
      if k == -1 then -1 else k + 1
  }

  /** `rows.find(item => item[column] === value) || null` */
  function FindFirst(rows: seq<Record>, column: string, value: Value): (r: Option<Record>)
    ensures r.None? <==> forall j :: 0 <= j < |rows| ==> Get(rows[j], column) != value
    ensures r.Some? ==> exists j :: FirstMatch(rows, column, value, j) && rows[j] == r.value
  {
    var i := FindIndex(rows, column, value);
    if i < 0 then None else Some(rows[i])
  }

  function Min(a: int, b: int): int { if a <= b then a else b }
  function Max(a: int, b: int): int { if a >= b then a else b }

  /** `rows.slice(0, count)`: a negative count counts back from the end. */
  function Slice(rows: seq<Record>, count: int): (r: seq<Record>)
    ensures r <= rows
    ensures count >= 0 ==> |r| == Min(count, |rows|)
    ensures count < 0 ==> |r| == Max(|rows| + count, 0)
  {
    var end := if count >= 0 then Min(count, |rows|) else Max(|rows| + count, 0);
    rows[..end]
  }

  // ---------------------------------------------------------------------------
  // Sorting with the comparator
  //   (a, b) => { const result = a[column] < b[column] ? -1 : a[column] > b[column] ? 1 : 0;
  //               return ascending ? result : -result; }
  // Array.prototype.sort is stable, so the model is a stable insertion sort.

  /** x must come strictly before y under the comparator. */
  predicate Precedes(x: Record, y: Record, column: string, ascending: bool) {
    if ascending then Less(Get(x, column), Get(y, column))
    else Less(Get(y, column), Get(x, column))
  }

  /** Ascending: `column` never decreases; descending: it never increases. */
  predicate SortedOn(rows: seq<Record>, column: string, ascending: bool) {
    forall i, j :: 0 <= i < j < |rows| ==> !Precedes(rows[j], rows[i], column, ascending)
  }

  /** Places x after the leading rows that precede it. */
  function InsertSorted(x: Record, rows: seq<Record>, column: string, ascending: bool): seq<Record> {
    if rows == [] then [x]
    else if Precedes(rows[0], x, column, ascending) then [rows[0]] + InsertSorted(x, rows[1..], column, ascending)
    else [x] + rows
  }

  function SortBy(rows: seq<Record>, column: string, ascending: bool): seq<Record> {
    if rows == [] then [] else InsertSorted(rows[0], SortBy(rows[1..], column, ascending), column, ascending)
  }

  lemma NotLessTransitive(a: Value, b: Value, c: Value)
    requires !Less(a, b) && !Less(b, c)
    ensures !Less(a, c)
  {
    LessTotal(a, b);
    if Less(a, c) && Less(b, a) { LessTransitive(b, a, c); }
  }

  lemma PrecedesAsymmetric(x: Record, y: Record, column: string, ascending: bool)
    requires Precedes(x, y, column, ascending)
    ensures !Precedes(y, x, column, ascending)
  {
    var a, b := Get(x, column), Get(y, column);
    if Less(a, b) && Less(b, a) { LessTransitive(a, b, a); LessIrreflexive(a); }
  }

  lemma NotPrecedesTransitive(x: Record, y: Record, z: Record, column: string, ascending: bool)
    requires !Precedes(x, y, column, ascending) && !Precedes(y, z, column, ascending)
    ensures !Precedes(x, z, column, ascending)
  {
    var a, b, c := Get(x, column), Get(y, column), Get(z, column);
    if ascending { NotLessTransitive(a, b, c); } else { NotLessTransitive(c, b, a); }
  }

  lemma {:induction false} InsertSortedElements(x: Record, rows: seq<Record>, column: string, ascending: bool)
    ensures multiset(InsertSorted(x, rows, column, ascending)) == multiset(rows) + multiset{x}
  {
    if rows != [] && Precedes(rows[0], x, column, ascending) {
      InsertSortedElements(x, rows[1..], column, ascending);
      assert rows == [rows[0]] + rows[1..];
    }
  }

  /** Every row of a sorted list that x precedes-or-ties stays after x's predecessors. */
  lemma HeadBeforeInserted(x: Record, rows: seq<Record>, column: string, ascending: bool)
    requires rows != [] && SortedOn(rows, column, ascending) && Precedes(rows[0], x, column, ascending)
    ensures forall e :: e in multiset(InsertSorted(x, rows[1..], column, ascending)) ==>
      !Precedes(e, rows[0], column, ascending)
  {
    InsertSortedElements(x, rows[1..], column, ascending);
    forall e | e in multiset(InsertSorted(x, rows[1..], column, ascending))
      ensures !Precedes(e, rows[0], column, ascending)
    {
      if e == x {
        PrecedesAsymmetric(rows[0], x, column, ascending);
      } else {
        assert e in rows[1..];
        var k :| 0 <= k < |rows[1..]| && rows[1..][k] == e;
        assert rows[k + 1] == e;
      }
    }
  }

  /** Dropping the head keeps a list sorted. */
  lemma SortedTail(rows: seq<Record>, column: string, ascending: bool)
    requires rows != [] && SortedOn(rows, column, ascending)
    ensures SortedOn(rows[1..], column, ascending)
  {
    var tail := rows[1..];
    forall i, j | 0 <= i < j < |tail| ensures !Precedes(tail[j], tail[i], column, ascending) {
      assert tail[i] == rows[i + 1] && tail[j] == rows[j + 1];
    }
  }

  /** A head that nothing in a sorted list precedes keeps it sorted. */
  lemma SortedCons(h: Record, rows: seq<Record>, column: string, ascending: bool)
    requires SortedOn(rows, column, ascending)
    requires forall e :: e in multiset(rows) ==> !Precedes(e, h, column, ascending)
    ensures SortedOn([h] + rows, column, ascending)
  {
    var r := [h] + rows;
    forall i, j | 0 <= i < j < |r| ensures !Precedes(r[j], r[i], column, ascending) {
      assert r[j] == rows[j - 1] && r[j] in multiset(rows);
      if i > 0 { assert r[i] == rows[i - 1]; }
    }
  }

  /** A row that does not follow the head of a sorted list follows none of it. */
  lemma BeforeAll(x: Record, rows: seq<Record>, column: string, ascending: bool)
    requires rows != [] && SortedOn(rows, column, ascending) && !Precedes(rows[0], x, column, ascending)
    ensures forall e :: e in multiset(rows) ==> !Precedes(e, x, column, ascending)
  {
    forall e | e in multiset(rows) ensures !Precedes(e, x, column, ascending) {
      var j :| 0 <= j < |rows| && rows[j] == e;
      if j > 0 { NotPrecedesTransitive(rows[j], rows[0], x, column, ascending); }
    }
  }

  lemma {:induction false} InsertSortedSorted(x: Record, rows: seq<Record>, column: string, ascending: bool)
    requires SortedOn(rows, column, ascending)
    ensures SortedOn(InsertSorted(x, rows, column, ascending), column, ascending)
  {
    if rows == [] {
    } else if Precedes(rows[0], x, column, ascending) {
      SortedTail(rows, column, ascending);
      InsertSortedSorted(x, rows[1..], column, ascending);
      HeadBeforeInserted(x, rows, column, ascending);
      SortedCons(rows[0], InsertSorted(x, rows[1..], column, ascending), column, ascending);
    } else {
      BeforeAll(x, rows, column, ascending);
      SortedCons(x, rows, column, ascending);
    }
  }

  /** The `order` read: a permutation of the rows, sorted on `column` in the requested
      direction. */
  lemma {:induction false} SortByCorrect(rows: seq<Record>, column: string, ascending: bool)
    ensures multiset(SortBy(rows, column, ascending)) == multiset(rows)
    ensures SortedOn(SortBy(rows, column, ascending), column, ascending)
  {
    if rows != [] {
      SortByCorrect(rows[1..], column, ascending);
      InsertSortedElements(rows[0], SortBy(rows[1..], column, ascending), column, ascending);
      InsertSortedSorted(rows[0], SortBy(rows[1..], column, ascending), column, ascending);
      assert rows == [rows[0]] + rows[1..];
    }
  }

  // ---------------------------------------------------------------------------

  /** `index = rows.findIndex(...); if (index >= 0) rows[index] = { ...rows[index], ...updates }` */
  function UpdateFirst(rows: seq<Record>, column: string, value: Value, updates: Record): seq<Record> {
    var i := FindIndex(rows, column, value);
    if i < 0 then rows else rows[i := Overlay(rows[i], updates)]
  }

  /** Only the first matching row changes: it reads the updates' values for their keys and its
      own values elsewhere; every other row is unchanged; with no match nothing changes. */
  lemma UpdateFirstEffect(rows: seq<Record>, column: string, value: Value, updates: Record, k: string)
    ensures |UpdateFirst(rows, column, value, updates)| == |rows|
    ensures (forall j :: 0 <= j < |rows| ==> Get(rows[j], column) != value) ==>
      UpdateFirst(rows, column, value, updates) == rows
    ensures forall j :: FirstMatch(rows, column, value, j) ==>
      && (forall m :: 0 <= m < |rows| && m != j ==> UpdateFirst(rows, column, value, updates)[m] == rows[m])
      && Get(UpdateFirst(rows, column, value, updates)[j], k) ==
           if HasKey(updates, k) then Get(updates, k) else Get(rows[j], k)
  {
    var i := FindIndex(rows, column, value);
    forall j | FirstMatch(rows, column, value, j) ensures j == i {
    }
    if i >= 0 { GetOverlay(rows[i], updates, k); }
  }
}
