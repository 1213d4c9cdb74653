/** The browser shim: a Supabase-shaped API over an sql.js database when one could be opened,
    and over an in-memory dictionary of tables otherwise. */
module BrowserDb {
  import opened Values
  import opened Tables
  import opened Sql
  import opened Uuid
  import opened Database

  // ---------------------------------------------------------------------------
  // Pieces shared by both paths

  /** How loading sql.js and opening the database went; the library and localStorage are
      outside the model. */
  datatype InitOutcome =
    | Opened(tables: map<string, seq<Record>>)            // a saved or a new, seeded database
    | OpenedThenFailed(tables: map<string, seq<Record>>)  // `new SQL.Database()` worked, `createSchema` or `seedData` threw
    | Failed                                              // `initSqlJs` or loading the saved database threw

  /** An insert either fails in the engine, or finds no first record to take columns from. */
  datatype Failure = Engine(error: SqlError) | NoRecords

  /** The columns this schema declares `NOT NULL`; the browser schema has no CHECK clauses. */
  function BrowserChecks(table: string): seq<Check> {
    if table == "projects" then NotNulls(ProjectRequired)
    else if table == "donations" then NotNulls(DonationRequired)
    else if table == "contact_messages" then NotNulls(MessageRequired)
    else []
  }

  /** `record.id || generateId()`, with the draws taken so far: the record's own id when it is
      truthy, else the next identifier. */
  function IdFor(e: Entropy, record: Record, from: nat): (r: (Value, nat))
    ensures Truthy(r.0)
    ensures Truthy(Get(record, "id")) ==> r == (Get(record, "id"), from)
    ensures !Truthy(Get(record, "id")) ==> r == (Str(e.IdAt(from)), from + 31)
  {
    if Truthy(Get(record, "id")) then (Get(record, "id"), from) else (Str(e.IdAt(from)), from + 31)
  }

  // ---------------------------------------------------------------------------
  // The in-memory fallback

  /** `fallbackData[table] || []` */
  function FallbackRows(fallback: map<string, seq<Record>>, table: string): seq<Record> {
    if table in fallback then fallback[table] else []
  }

  /** The copies the fallback `insert` pushes, `{ ...record, id }`, and the draws taken. */
  function Copies(e: Entropy, records: seq<Record>, from: nat): (seq<Record>, nat) {
    if records == [] then ([], from)
    else
      var (done, drawn) := Copies(e, records[..|records| - 1], from);
      var (id, next) := IdFor(e, records[|records| - 1], drawn);
      (done + [Overlay(records[|records| - 1], [("id", id)])], next)
  }

  /** Each copy is its record with a truthy id: the record's own when truthy, else a fresh one;
      every other property is the record's. */
  lemma {:induction false} CopiesMeaning(e: Entropy, records: seq<Record>, from: nat, i: int, k: string)
    requires 0 <= i < |records|
    ensures |Copies(e, records, from).0| == |records|
    ensures Truthy(Get(Copies(e, records, from).0[i], "id"))
    ensures Truthy(Get(records[i], "id")) ==> Get(Copies(e, records, from).0[i], "id") == Get(records[i], "id")
    ensures k != "id" ==> Get(Copies(e, records, from).0[i], k) == Get(records[i], k)
    decreases |records|
  {
    var n := |records| - 1;
    var (done, drawn) := Copies(e, records[..n], from);
    CopiesLength(e, records[..n], from);
    if i < n {
      CopiesMeaning(e, records[..n], from, i, k);
    } else {
      var id := IdFor(e, records[n], drawn).0;
      var tail: Record := [("id", id)];
      assert tail[1..] == [];
      GetOverlay(records[n], tail, k);
      GetOverlay(records[n], tail, "id");
    }
  }

  lemma {:induction false} CopiesLength(e: Entropy, records: seq<Record>, from: nat)
    ensures |Copies(e, records, from).0| == |records|
    decreases |records|
  {
    if records != [] { CopiesLength(e, records[..|records| - 1], from); }
  }

  // ---------------------------------------------------------------------------
  // The engine path's statements

  /** `Object.keys(recordsArray[0])`: the columns of the INSERT as written, taken from the
      first record alone. */
  function ColumnsAsWritten(first: Record): seq<string> {
    Keys(first)
  }

  /** The columns with `id` added when the first record lacks it, so that the id the loop
      computes reaches the table. */
  function InsertColumns(first: Record): (cols: seq<string>)
    ensures "id" in cols
    ensures |cols| >= |first| && cols[..|first|] == Keys(first)
  {
    if "id" in Keys(first) then Keys(first) else Keys(first) + ["id"]
  }

  /** One run of the prepared INSERT: `columns.map(col => col === 'id' ? id : record[col])`. */
  function InsertOne(table: string, cols: seq<string>, record: Record, id: Value): (s: Statement)
    ensures WellFormed(s) && s.command.Insert?
  {
    Statement(Insert(table, cols, Params(|cols|)),
              seq(|cols|, j requires 0 <= j < |cols| => if cols[j] == "id" then id else Get(record, cols[j])))
  }

  /** The row one run adds: column by column, the id or the record's value, as stored. */
  lemma InsertOneRow(table: string, cols: seq<string>, record: Record, id: Value)
    ensures var row := InsertedRow(InsertOne(table, cols, record, id));
      && |row| == |cols|
      && forall j :: 0 <= j < |cols| ==> row[j] == (cols[j], Stored(if cols[j] == "id" then id else Get(record, cols[j])))
  {
    var values := seq(|cols|, j requires 0 <= j < |cols| => if cols[j] == "id" then id else Get(record, cols[j]));
    BindParams(|cols|, values);
  }

  /** With the columns as written, a first record without `id` is stored without one: the id
      computed for it is never bound. */
  lemma IdDroppedAsWritten(table: string, first: Record, id: Value)
    requires !HasKey(first, "id")
    ensures !HasKey(InsertedRow(InsertOne(table, ColumnsAsWritten(first), first, id)), "id")
  {
    var cols := ColumnsAsWritten(first);
    var row := InsertedRow(InsertOne(table, cols, first, id));
    InsertOneRow(table, cols, first, id);
    HasKeyIff(first, "id");
    forall j | 0 <= j < |row| ensures row[j].0 != "id" {
      assert row[j].0 == first[j].0;
    }
    HasKeyIff(row, "id");
  }

  /** Whenever `id` is among the columns, the stored row holds the id the loop computed. */
  lemma IdStoredAt(table: string, cols: seq<string>, record: Record, id: Value)
    requires "id" in cols
    ensures Get(InsertedRow(InsertOne(table, cols, record, id)), "id") == Stored(id)
  {
    var row := InsertedRow(InsertOne(table, cols, record, id));
    InsertOneRow(table, cols, record, id);
    GetFirstAt(row, "id", IdColumn(cols));
  }

  /** With `id` added, the stored row holds the id the loop computed. */
  lemma IdStored(table: string, first: Record, record: Record, id: Value)
    ensures Get(InsertedRow(InsertOne(table, InsertColumns(first), record, id)), "id") == Stored(id)
  {
    IdStoredAt(table, InsertColumns(first), record, id);
  }

  /** Where `id` first appears in a column list that holds it. */
  function IdColumn(cols: seq<string>): (j: nat)
    requires "id" in cols
    ensures j < |cols| && cols[j] == "id" && forall i :: 0 <= i < j ==> cols[i] != "id"
  {
    if cols[0] == "id" then 0
    else
      assert "id" in cols[1..] by {
        var k :| 0 <= k < |cols| && cols[k] == "id";
        assert cols[1..][k - 1] == "id";
      }
      var j := IdColumn(cols[1..]);
      assert forall i :: 0 < i <= j ==> cols[i] == cols[1..][i - 1];
      j + 1
  }

  /** The engine's tables while an INSERT loop runs: the rows so far, the draws taken, and
      the error that stopped it. */
  datatype Progress = Progress(rows: seq<Record>, drawn: nat, failure: Option<SqlError>)

  /** One pass of `for (const record of recordsArray)`; a failed run throws out of the loop. */
  function InsertStep(e: Entropy, table: string, cols: seq<string>, p: Progress, record: Record): Progress {
    if p.failure.Some? then p
    else
      var (id, next) := IdFor(e, record, p.drawn);
      match Run(p.rows, BrowserChecks(table), InsertOne(table, cols, record, id))
      case Ok(t) => Progress(t, next, None)
      case Err(err) => Progress(p.rows, next, Some(err))
  }

  /** The loop over a prefix of the records. */
  function InsertRuns(e: Entropy, table: string, cols: seq<string>, p: Progress, records: seq<Record>): Progress {
    if records == [] then p
    else InsertStep(e, table, cols, InsertRuns(e, table, cols, p, records[..|records| - 1]), records[|records| - 1])
  }

  /** The loop one record further on. */
  lemma InsertRunsNext(e: Entropy, table: string, cols: seq<string>, p: Progress, records: seq<Record>, i: nat, q: Progress)
    requires i < |records| && InsertRuns(e, table, cols, p, records[..i]) == q
    ensures InsertRuns(e, table, cols, p, records[..i + 1]) == InsertStep(e, table, cols, q, records[i])
  {
    assert records[..i + 1][..i] == records[..i];
  }

  /** Once a run has failed, the rest of the loop changes nothing. */
  lemma {:induction false} InsertRunsStop(e: Entropy, table: string, cols: seq<string>, p: Progress, records: seq<Record>, i: nat)
    requires i <= |records| && InsertRuns(e, table, cols, p, records[..i]).failure.Some?
    ensures InsertRuns(e, table, cols, p, records) == InsertRuns(e, table, cols, p, records[..i])
    decreases |records| - i
  {
    if i < |records| {
      assert records[..i + 1][..i] == records[..i];
      InsertRunsStop(e, table, cols, p, records, i + 1);
    } else {
      assert records[..i] == records;
    }
  }

  /** Every run that succeeds appends one row, keeping the rows before it: the table only grows,
      and it grows by one row per record when no run fails. */
  lemma {:induction false} InsertRunsGrow(e: Entropy, table: string, cols: seq<string>, p: Progress, records: seq<Record>)
    requires p.failure.None?
    ensures var q := InsertRuns(e, table, cols, p, records);
      && p.rows <= q.rows
      && (q.failure.None? ==> |q.rows| == |p.rows| + |records|)
      && q.drawn >= p.drawn
  {
    if records != [] {
      var n := |records| - 1;
      InsertRunsGrow(e, table, cols, p, records[..n]);
      var q := InsertRuns(e, table, cols, p, records[..n]);
      if q.failure.None? {
        var (id, next) := IdFor(e, records[n], q.drawn);
        var s := InsertOne(table, cols, records[n], id);
        if Run(q.rows, BrowserChecks(table), s).Ok? {
          RunEffect(q.rows, BrowserChecks(table), s);
        }
      }
    }
  }


  /** What a row added by the INSERT loop holds: exactly the statement's columns, in their
      order, and a truthy id when `id` is one of them. */
  predicate AddedRow(cols: seq<string>, row: Record) {
    Keys(row) == cols && ("id" in cols ==> Truthy(Get(row, "id")))
  }

  /** Appending an added row keeps every row from `base` on an added row. */
  lemma AddedExtend(cols: seq<string>, base: nat, rows: seq<Record>, rows2: seq<Record>)
    requires |rows| >= base && forall i :: base <= i < |rows| ==> AddedRow(cols, rows[i])
    requires |rows2| == |rows| + 1 && rows2[..|rows|] == rows && AddedRow(cols, rows2[|rows|])
    ensures forall i :: base <= i < |rows2| ==> AddedRow(cols, rows2[i])
  {
    forall i | base <= i < |rows2| ensures AddedRow(cols, rows2[i]) {
      if i < |rows| { assert rows2[i] == rows2[..|rows|][i]; }
    }
  }

  /** Every row the loop adds has the statement's columns, and a truthy id when `id` is among
      them. */
  lemma {:induction false} InsertRunsIds(e: Entropy, table: string, cols: seq<string>, p: Progress, records: seq<Record>)
    requires p.failure.None?
    ensures var q := InsertRuns(e, table, cols, p, records);
      q.failure.None? ==> |q.rows| >= |p.rows| && forall i :: |p.rows| <= i < |q.rows| ==> AddedRow(cols, q.rows[i])
  {
    if records != [] {
      var n := |records| - 1;
      var q := InsertRuns(e, table, cols, p, records[..n]);
      InsertRunsIds(e, table, cols, p, records[..n]);
      var q2 := InsertStep(e, table, cols, q, records[n]);
      assert InsertRuns(e, table, cols, p, records) == q2;
      if q.failure.None? {
        InsertStepRow(e, table, cols, q, records[n]);
        if q2.failure.None? {
          AddedExtend(cols, |p.rows|, q.rows, q2.rows);
        }
      }
    }
  }

  /** One pass that succeeds appends one row, holding the statement's columns and, when `id` is
      among them, the truthy id the pass computed. */
  lemma InsertStepRow(e: Entropy, table: string, cols: seq<string>, q: Progress, record: Record)
    requires q.failure.None?
    ensures var q2 := InsertStep(e, table, cols, q, record);
      q2.failure.None? ==>
        |q2.rows| == |q.rows| + 1 && q2.rows[..|q.rows|] == q.rows && AddedRow(cols, q2.rows[|q.rows|])
  {
    var (id, next) := IdFor(e, record, q.drawn);
    var s := InsertOne(table, cols, record, id);
    if Run(q.rows, BrowserChecks(table), s).Ok? {
      RunEffect(q.rows, BrowserChecks(table), s);
      var row := InsertedRow(s);
      InsertOneRow(table, cols, record, id);
      assert Keys(row) == cols;
      if "id" in cols {
        IdStoredAt(table, cols, record, id);
      }
    }
  }

  /** What the engine `insert` leaves behind: the tables, the draws taken, and the outcome. */
  datatype Insertion = Insertion(tables: map<string, seq<Record>>, drawn: nat, result: Result<(), Failure>)

  /** The prepared INSERT with the given columns, run once per record: preparing fails on an
      unknown table; a failed run ends the loop, keeping the rows added before it. */
  function RunInsert(e: Entropy, tables: map<string, seq<Record>>, table: string, cols: seq<string>,
                     records: seq<Record>, from: nat): Insertion
  {
    if table !in tables then Insertion(tables, from, Err(Engine(NoSuchTable)))
    else
      var p := InsertRuns(e, table, cols, Progress(tables[table], from, None), records);
      Insertion(tables[table := p.rows], p.drawn, if p.failure.Some? then Err(Engine(p.failure.value)) else Ok(()))
  }

  /** The loop touches only its table; on success the table is the old rows followed by one
      added row per record. */
  lemma RunInsertMeaning(e: Entropy, tables: map<string, seq<Record>>, table: string, cols: seq<string>,
                         records: seq<Record>, from: nat)
    ensures var x := RunInsert(e, tables, table, cols, records, from);
      && x.tables.Keys == tables.Keys
      && (forall t :: t in tables && t != table ==> x.tables[t] == tables[t])
      && (x.result.Ok? ==>
            table in tables
            && |x.tables[table]| == |tables[table]| + |records|
            && x.tables[table][..|tables[table]|] == tables[table]
            && forall i :: |tables[table]| <= i < |x.tables[table]| ==> AddedRow(cols, x.tables[table][i]))
  {
    if table in tables {
      var p := Progress(tables[table], from, None);
      InsertRunsGrow(e, table, cols, p, records);
      InsertRunsIds(e, table, cols, p, records);
    }
  }

  /** The engine `insert` as written: `Object.keys(recordsArray[0])` throws on an empty array,
      an empty column list makes `INSERT INTO t () VALUES ()`, which does not parse, and
      otherwise the loop runs with the first record's keys as the columns. */
  function EngineInsertion(e: Entropy, tables: map<string, seq<Record>>, table: string, records: seq<Record>, from: nat): Insertion {
    if records == [] then Insertion(tables, from, Err(NoRecords))
    else if ColumnsAsWritten(records[0]) == [] then Insertion(tables, from, Err(Engine(SyntaxError)))
    else RunInsert(e, tables, table, ColumnsAsWritten(records[0]), records, from)
  }

  /** The engine insert as written touches only its table. With no records or a first record
      without properties it changes nothing. On success it appends one row per record, each
      holding exactly the first record's keys as columns, with a truthy id when the first
      record has an `id` property. */
  lemma EngineInsertionMeaning(e: Entropy, tables: map<string, seq<Record>>, table: string, records: seq<Record>, from: nat)
    ensures var x := EngineInsertion(e, tables, table, records, from);
      && x.tables.Keys == tables.Keys
      && (forall t :: t in tables && t != table ==> x.tables[t] == tables[t])
      && (records == [] ==> x == Insertion(tables, from, Err(NoRecords)))
      && (records != [] && records[0] == [] ==> x == Insertion(tables, from, Err(Engine(SyntaxError))))
      && (x.result.Ok? ==>
            records != [] && records[0] != [] && table in tables
            && |x.tables[table]| == |tables[table]| + |records|
            && x.tables[table][..|tables[table]|] == tables[table]
            && forall i :: |tables[table]| <= i < |x.tables[table]| ==>
                 Keys(x.tables[table][i]) == Keys(records[0])
                 && (HasKey(records[0], "id") ==> Truthy(Get(x.tables[table][i], "id"))))
  {
    if records != [] && records[0] != [] {
      var cols := ColumnsAsWritten(records[0]);
      RunInsertMeaning(e, tables, table, cols, records, from);
      HasKeyIff(records[0], "id");
    }
  }

  /** As written, an insert whose first record has no `id` property stores every one of its
      rows without an `id`: the ids the loop computes are drawn and dropped. */
  lemma EngineInsertDropsIds(e: Entropy, tables: map<string, seq<Record>>, table: string, records: seq<Record>, from: nat)
    requires records != [] && !HasKey(records[0], "id")
    ensures var x := EngineInsertion(e, tables, table, records, from);
      x.result.Ok? ==>
        table in tables && |x.tables[table]| == |tables[table]| + |records|
        && forall i :: |tables[table]| <= i < |x.tables[table]| ==> !HasKey(x.tables[table][i], "id")
  {
    var x := EngineInsertion(e, tables, table, records, from);
    EngineInsertionMeaning(e, tables, table, records, from);
    if x.result.Ok? {
      forall i | |tables[table]| <= i < |x.tables[table]| ensures !HasKey(x.tables[table][i], "id") {
        var row := x.tables[table][i];
        HasKeyIff(records[0], "id");
        HasKeyIff(row, "id");
      }
    }
  }

  /** The corrected engine insert: the loop runs with `id` added to the first record's keys. */
  function CorrectedInsertion(e: Entropy, tables: map<string, seq<Record>>, table: string, records: seq<Record>, from: nat): Insertion {
    if records == [] then Insertion(tables, from, Err(NoRecords))
    else RunInsert(e, tables, table, InsertColumns(records[0]), records, from)
  }

  /** Corrected, the insert appends one row per record after the rows already there, and every
      one of them holds a truthy id. */
  lemma CorrectedInsertionMeaning(e: Entropy, tables: map<string, seq<Record>>, table: string, records: seq<Record>, from: nat)
    ensures var x := CorrectedInsertion(e, tables, table, records, from);
      && x.tables.Keys == tables.Keys
      && (forall t :: t in tables && t != table ==> x.tables[t] == tables[t])
      && (x.result.Ok? ==>
            records != [] && table in tables
            && |x.tables[table]| == |tables[table]| + |records|
            && x.tables[table][..|tables[table]|] == tables[table]
            && forall i :: |tables[table]| <= i < |x.tables[table]| ==> Truthy(Get(x.tables[table][i], "id")))
  {
    if records != [] {
      var cols := InsertColumns(records[0]);
      RunInsertMeaning(e, tables, table, cols, records, from);
    }
  }

  /** `UPDATE ${table} SET ${setClause} WHERE ${column} = ?` with
      `[...Object.values(updates), value]`. */
  function UpdateStatement(table: string, updates: Record, column: string, value: Value): (s: Statement)
    ensures WellFormed(s) && s.command.Update?
  {
    Statement(Update(table, SetList(Keys(updates)), column), ValuesOf(updates) + [value])
  }

  /** The SET list, bound, is the updates as stored, and the WHERE clause compares `column`
      with the value. */
  lemma UpdateAssigned(table: string, updates: Record, column: string, value: Value)
    ensures var s := UpdateStatement(table, updates, column, value);
      Assigned(s) == StoredAll(updates) && WhereValue(s) == value && s.command.whereColumn == column
  {
    var s := UpdateStatement(table, updates, column, value);
    var asg := s.command.assignments;
    var n := |updates|;
    var bound := s.params[..|s.params| - 1];
    assert bound == ValuesOf(updates);
    BindParams(n, bound);
    var a := Assigned(s);
    var e := StoredAll(updates);
    assert |a| == |e|;
    forall i | 0 <= i < n ensures a[i] == e[i] {
      assert AssignedColumns(asg)[i] == Keys(updates)[i];
      StoredAllAt(updates, i);
    }
  }

  /** Updating by key: a row whose `column` equals the value takes the updates for their keys;
      every other row and every other column stays. */
  lemma UpdateStatementEffect(rows: seq<Record>, table: string, updates: Record, column: string, value: Value, j: int, k: string)
    requires UniqueKeys(updates) && 0 <= j < |rows|
    ensures var s := UpdateStatement(table, updates, column, value);
      Get(Updated(rows, s)[j], k) ==
        if SqlEquals(Get(rows[j], column), Stored(value)) && HasKey(updates, k) then Stored(Get(updates, k))
        else Get(rows[j], k)
  {
    var s := UpdateStatement(table, updates, column, value);
    UpdateAssigned(table, updates, column, value);
    UpdatedAt(rows, s, j, k);
    GetStoredAll(updates, k);
    GetLastUnique(StoredAll(updates), k);
  }

  /** What the engine `update(...).eq(...)` leaves behind: an empty SET list is a syntax error,
      an unknown table fails to prepare, otherwise the UPDATE runs. */
  function EngineUpdate(tables: map<string, seq<Record>>, table: string, updates: Record, column: string, value: Value)
    : (map<string, seq<Record>>, Result<(), SqlError>)
  {
    if updates == [] then (tables, Err(SyntaxError))
    else if table !in tables then (tables, Err(NoSuchTable))
    else match Run(tables[table], BrowserChecks(table), UpdateStatement(table, updates, column, value))
      case Ok(t) => (tables[table := t], Ok(()))
      case Err(e) => (tables, Err(e))
  }

  /** The fallback `update(...).eq(...)`: the first row whose column is `===` the value is
      spread with the updates; with no such row nothing changes. */
  function FallbackUpdate(fallback: map<string, seq<Record>>, table: string, updates: Record, column: string, value: Value)
    : map<string, seq<Record>>
  {
    if FindIndex(FallbackRows(fallback, table), column, value) >= 0
    then fallback[table := UpdateFirst(FallbackRows(fallback, table), column, value, updates)]
    else fallback
  }

  /** The fallback update keeps every table but the one named, and there it changes the first
      matching row alone, which reads the updates for their keys. */
  lemma FallbackUpdateMeaning(fallback: map<string, seq<Record>>, table: string, updates: Record, column: string, value: Value, k: string)
    ensures var f := FallbackUpdate(fallback, table, updates, column, value);
      var rows := FallbackRows(fallback, table);
      && (forall t :: t != table ==> FallbackRows(f, t) == FallbackRows(fallback, t))
      && |FallbackRows(f, table)| == |rows|
      && (forall j :: 0 <= j < |rows| && Get(rows[j], column) != value ==> FallbackRows(f, table)[j] == rows[j])
      && (forall j :: FirstMatch(rows, column, value, j) ==>
            Get(FallbackRows(f, table)[j], k) == if HasKey(updates, k) then Get(updates, k) else Get(rows[j], k))
  {
    var rows := FallbackRows(fallback, table);
    UpdateFirstEffect(rows, column, value, updates, k);
    var i := FindIndex(rows, column, value);
    forall j | 0 <= j < |rows| && Get(rows[j], column) != value
      ensures FallbackRows(FallbackUpdate(fallback, table, updates, column, value), table)[j] == rows[j]
    {
      if i >= 0 { assert j != i; }
    }
  }

  /** The builders' texts carry one `?` per bound value when no name holds a `?`. */
  lemma InsertText(table: string, cols: seq<string>, record: Record, id: Value)
    requires '?' !in table && forall i :: 0 <= i < |cols| ==> '?' !in cols[i]
    ensures Count(Text(InsertOne(table, cols, record, id).command), '?') == |cols|
      == |InsertOne(table, cols, record, id).params|
  {
    InsertTextCount(table, cols, Params(|cols|));
  }

  lemma UpdateText(table: string, updates: Record, column: string, value: Value)
    requires '?' !in table && '?' !in column && forall i :: 0 <= i < |updates| ==> '?' !in updates[i].0
    ensures Count(Text(UpdateStatement(table, updates, column, value).command), '?') == |updates| + 1
      == |UpdateStatement(table, updates, column, value).params|
  {
    var asg := SetList(Keys(updates));
    forall i | 0 <= i < |asg| ensures '?' !in asg[i].0 {
      AssignedColumnsAt(asg, i);
    }
    UpdateTextCount(table, asg, column);
  }

  /** The fallback after pushing the copies: the table is created by the first push. */
  function FallbackInserted(fallback: map<string, seq<Record>>, table: string, copies: seq<Record>): map<string, seq<Record>> {
    if copies == [] then fallback else fallback[table := FallbackRows(fallback, table) + copies]
  }

  lemma FallbackPush(fallback: map<string, seq<Record>>, table: string, copies: seq<Record>, x: Record)
    ensures var g := FallbackInserted(fallback, table, copies);
      FallbackInserted(fallback, table, copies + [x]) == g[table := FallbackRows(g, table) + [x]]
  {
    if copies == [] {
      assert copies + [x] == [x];
    } else {
      assert (FallbackRows(fallback, table) + copies) + [x] == FallbackRows(fallback, table) + (copies + [x]);
    }
  }

  /** The `db` handle after `initDB()`: kept once initialized, else what opening gave. */
  function HandleAfter(initialized: bool, engine: Option<map<string, seq<Record>>>, outcome: InitOutcome)
    : Option<map<string, seq<Record>>>
  {
    if initialized then engine else if outcome.Failed? then None else Some(outcome.tables)
  }

  // ---------------------------------------------------------------------------

  /** The module state: `isInitialized`, the `db` handle (the engine's tables when open), the
      `fallbackData` dictionary, and the `Math.random` stream. */
  class Browser {
    var initialized: bool
    var engine: Option<map<string, seq<Record>>>
    var fallback: map<string, seq<Record>>
    const rng: Entropy

    /** `db` is only ever set by `initDB`. */
    predicate Valid()
      reads this
    {
      !initialized ==> engine.None?
    }

    /** The module as loaded: not initialized, no database, the demo projects in the fallback. */
    constructor (rng: Entropy, demoProjects: seq<Record>)
      ensures Valid() && !initialized && engine.None? && this.rng == rng
      ensures fallback == map["projects" := demoProjects, "donations" := [], "contact_messages" := []]
    {
      this.rng := rng;
      initialized := false;
      engine := None;
      fallback := map["projects" := demoProjects, "donations" := [], "contact_messages" := []];
    }

    /** `initDB()`: does nothing once initialized; otherwise always ends initialized, with the
        database open unless loading sql.js or the saved database failed. */
    method InitDB(outcome: InitOutcome)
      requires Valid()
      modifies this
      ensures Valid() && initialized && fallback == old(fallback)
      ensures engine == HandleAfter(old(initialized), old(engine), outcome)
    {
      if initialized {
        return;
      }
      match outcome {
      case Opened(tables) =>
        engine := Some(tables);
      case OpenedThenFailed(tables) =>
        engine := Some(tables);
      case Failed =>
      }
      initialized := true;
    }

    /** `select().then`: every row, in rowid order or in the fallback's order. */
    method SelectAll(outcome: InitOutcome, table: string) returns (r: Result<seq<Record>, SqlError>)
      requires Valid()
      modifies this
      ensures Valid() && initialized && fallback == old(fallback)
      ensures engine == HandleAfter(old(initialized), old(engine), outcome)
      ensures match engine
        case None => r == Ok(FallbackRows(fallback, table))
        case Some(tables) => r == if table in tables then Ok(tables[table]) else Err(NoSuchTable)
    {
      InitDB(outcome);
      match engine
      case None =>
        r := Ok(FallbackRows(fallback, table));
      case Some(tables) =>
        r := if table in tables then Ok(tables[table]) else Err(NoSuchTable);
    }

    /** `select().eq(column, value).single()`: the first row whose column equals the value,
        or null. The fallback compares with `===`, the engine with SQL `=`. */
    method SelectSingle(outcome: InitOutcome, table: string, column: string, value: Value)
      returns (r: Result<Option<Record>, SqlError>)
      requires Valid()
      modifies this
      ensures Valid() && initialized && fallback == old(fallback)
      ensures engine == HandleAfter(old(initialized), old(engine), outcome)
      ensures match engine
        case None => r == Ok(FindFirst(FallbackRows(fallback, table), column, value))
        case Some(tables) =>
          r == if table !in tables then Err(NoSuchTable)
               else if value == Undefined then Err(UnboundValue)
               else var m := Where(tables[table], column, value); Ok(if m == [] then None else Some(m[0]))
    {
      InitDB(outcome);
      match engine
      case None =>
        r := Ok(FindFirst(FallbackRows(fallback, table), column, value));
      case Some(tables) =>
        if table !in tables {
          r := Err(NoSuchTable);
        } else if value == Undefined {
          r := Err(UnboundValue);
        } else {
          var m := Where(tables[table], column, value);
          r := Ok(if m == [] then None else Some(m[0]));
        }
    }

    /** `select().limit(count)`: the first `count` rows. The fallback uses `slice(0, count)`;
        SQLite reads a negative LIMIT as no limit. */
    method SelectLimit(outcome: InitOutcome, table: string, count: int) returns (r: Result<seq<Record>, SqlError>)
      requires Valid()
      modifies this
      ensures Valid() && initialized && fallback == old(fallback)
      ensures engine == HandleAfter(old(initialized), old(engine), outcome)
      ensures match engine
        case None => r == Ok(Slice(FallbackRows(fallback, table), count))
        case Some(tables) =>
          r == if table !in tables then Err(NoSuchTable)
               else if count < 0 then Ok(tables[table])
               else Ok(tables[table][..Min(count, |tables[table]|)])
    {
      InitDB(outcome);
      match engine
      case None =>
        r := Ok(Slice(FallbackRows(fallback, table), count));
      case Some(tables) =>
        if table !in tables {
          r := Err(NoSuchTable);
        } else if count < 0 {
          r := Ok(tables[table]);
        } else {
          r := Ok(tables[table][..Min(count, |tables[table]|)]);
        }
    }

    /** `select().order(column, options)`: a sorted copy, ascending only when
        `options.ascending` is truthy; the stored table keeps its order. */
    method SelectOrder(outcome: InitOutcome, table: string, column: string, ascending: bool)
      returns (r: Result<seq<Record>, SqlError>)
      requires Valid()
      modifies this
      ensures Valid() && initialized && fallback == old(fallback)
      ensures engine == HandleAfter(old(initialized), old(engine), outcome)
      ensures match engine
        case None => r == Ok(SortBy(FallbackRows(fallback, table), column, ascending))
        case Some(tables) => r == if table in tables then Ok(SortBy(tables[table], column, ascending)) else Err(NoSuchTable)
    {
      InitDB(outcome);
      match engine
      case None =>
        r := Ok(SortBy(FallbackRows(fallback, table), column, ascending));
      case Some(tables) =>
        r := if table in tables then Ok(SortBy(tables[table], column, ascending)) else Err(NoSuchTable);
    }

    /** `record.id || generateId()` */
    method IdOf(record: Record) returns (id: Value)
      modifies rng
      ensures (id, rng.drawn) == IdFor(rng, record, old(rng.drawn))
    {
      if Truthy(Get(record, "id")) {
        id := Get(record, "id");
      } else {
        var generated := rng.NextId();
        id := Str(generated);
      }
    }

    /** The fallback `insert` loop: each record is pushed as a copy with its id, creating the
        table on the first push. */
    method FallbackInsert(table: string, records: seq<Record>)
      modifies this, rng
      ensures initialized == old(initialized) && engine == old(engine)
      ensures var c := Copies(rng, records, old(rng.drawn));
        fallback == FallbackInserted(old(fallback), table, c.0) && rng.drawn == c.1
    {
      ghost var from := rng.drawn;
      var i := 0;
      while i < |records|
        invariant 0 <= i <= |records|
        invariant initialized == old(initialized) && engine == old(engine)
        invariant rng.drawn == Copies(rng, records[..i], from).1
        invariant fallback == FallbackInserted(old(fallback), table, Copies(rng, records[..i], from).0)
      {
        ghost var done := Copies(rng, records[..i], from).0;
        var id := IdOf(records[i]);
        var copy := Overlay(records[i], [("id", id)]);
        assert records[..i + 1][..i] == records[..i];
        assert Copies(rng, records[..i + 1], from) == (done + [copy], rng.drawn);
        FallbackPush(old(fallback), table, done, copy);
        fallback := fallback[table := FallbackRows(fallback, table) + [copy]];
        i := i + 1;
      }
      assert records[..i] == records;
    }

    /** The engine `insert`: the statement names the first record's keys, and is run once per
        record, stopping at the first run that fails; the rows already added stay. */
    method EngineInsert(tables: map<string, seq<Record>>, table: string, records: seq<Record>)
      returns (after: map<string, seq<Record>>, r: Result<(), Failure>)
      modifies rng
      ensures Insertion(after, rng.drawn, r) == EngineInsertion(rng, tables, table, records, old(rng.drawn))
    {
      if records == [] {
        return tables, Err(NoRecords);
      }
      var cols := ColumnsAsWritten(records[0]);
      if cols == [] {
        return tables, Err(Engine(SyntaxError));
      }
      if table !in tables {
        return tables, Err(Engine(NoSuchTable));
      }
      ghost var start := Progress(tables[table], rng.drawn, None);
      var rows := tables[table];
      var i := 0;
      r := Ok(());
      while i < |records|
        invariant 0 <= i <= |records|
        invariant InsertRuns(rng, table, cols, start, records[..i]) == Progress(rows, rng.drawn, None)
        invariant r == Ok(())
      {
        InsertRunsNext(rng, table, cols, start, records, i, Progress(rows, rng.drawn, None));
        var id := IdOf(records[i]);
        var step := Run(rows, BrowserChecks(table), InsertOne(table, cols, records[i], id));
        if step.Err? {
          InsertRunsStop(rng, table, cols, start, records, i + 1);
          r := Err(Engine(step.error));
          break;
        }
        rows := step.value;
        i := i + 1;
      }
      if r.Ok? {
        assert records[..i] == records;
      }
      after := tables[table := rows];
    }

    /** `insert(records)`: the input records as given, or the failure. */
    method Insert(outcome: InitOutcome, table: string, records: Records) returns (r: Result<seq<Record>, Failure>)
      requires Valid()
      modifies this, rng
      ensures Valid() && initialized
      ensures var rs := AsArray(records);
        match HandleAfter(old(initialized), old(engine), outcome)
        case None =>
          var c := Copies(rng, rs, old(rng.drawn));
          engine == None && fallback == FallbackInserted(old(fallback), table, c.0) && rng.drawn == c.1 && r == Ok(rs)
        case Some(tables) =>
          var x := EngineInsertion(rng, tables, table, rs, old(rng.drawn));
          && engine == Some(x.tables) && fallback == old(fallback) && rng.drawn == x.drawn
          && r == if x.result.Ok? then Ok(rs) else Err(x.result.error)
    {
      InitDB(outcome);
      var rs := AsArray(records);
      match engine
      case None =>
        FallbackInsert(table, rs);
        r := Ok(rs);
      case Some(tables) =>
        var after, done := EngineInsert(tables, table, rs);
        engine := Some(after);
        r := if done.Ok? then Ok(rs) else Err(done.error);
    }

    /** `update(updates).eq(column, value)`: the fallback spreads the updates over the first
        matching row; the engine runs the UPDATE. */
    method Update(outcome: InitOutcome, table: string, updates: Record, column: string, value: Value)
      returns (r: Result<(), SqlError>)
      requires Valid()
      modifies this
      ensures Valid() && initialized
      ensures match HandleAfter(old(initialized), old(engine), outcome)
        case None =>
          engine == None && r == Ok(()) && fallback == FallbackUpdate(old(fallback), table, updates, column, value)
        case Some(tables) =>
          var u := EngineUpdate(tables, table, updates, column, value);
          engine == Some(u.0) && r == u.1 && fallback == old(fallback)
    {
      InitDB(outcome);
      match engine
      case None =>
        var items := FallbackRows(fallback, table);
        var index := FindIndex(items, column, value);
        if index >= 0 {
          fallback := fallback[table := items[index := Overlay(items[index], updates)]];
        }
        r := Ok(());
      case Some(tables) =>
        if updates == [] {
          r := Err(SyntaxError);
        } else if table !in tables {
          r := Err(NoSuchTable);
        } else {
          var step := Run(tables[table], BrowserChecks(table), UpdateStatement(table, updates, column, value));
          if step.Ok? {
            engine := Some(tables[table := step.value]);
          }
          r := if step.Ok? then Ok(()) else Err(step.error);
        }
    }
  }
}
