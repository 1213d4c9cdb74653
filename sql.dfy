/** The INSERT and UPDATE statements the data layer hands to the embedded SQLite engine:
    their text, their placeholders and parameters, and their effect on one table. */
module Sql {
  import opened Values

  /** A value position in a statement: a `?` placeholder or an integer literal in the text. */
  datatype Slot = Param | Literal(n: nat)

  datatype Command =
    | Insert(table: string, columns: seq<string>, slots: seq<Slot>)
    | Update(table: string, assignments: seq<(string, Slot)>, whereColumn: string)

  /** A command with the values bound to its placeholders, in placeholder order. */
  datatype Statement = Statement(command: Command, params: seq<Value>)

  // ---------------------------------------------------------------------------
  // Text

  function Join(parts: seq<string>, sep: string): string {
    if parts == [] then "" else if |parts| == 1 then parts[0] else parts[0] + sep + Join(parts[1..], sep)
  }

  function Digit(n: nat): char
    requires n < 10
  {
    "0123456789"[n]
  }

  function NatText(n: nat): string {
    if n < 10 then [Digit(n)] else NatText(n / 10) + [Digit(n % 10)]
  }

  function SlotText(s: Slot): string {
    match s
    case Param => "?"
    case Literal(n) => NatText(n)
  }

  function SlotTexts(slots: seq<Slot>): seq<string> {
    if slots == [] then [] else [SlotText(slots[0])] + SlotTexts(slots[1..])
  }

  /** `column = ?` for each assignment */
  function AssignmentTexts(assignments: seq<(string, Slot)>): seq<string> {
    if assignments == [] then []
    else [assignments[0].0 + " = " + SlotText(assignments[0].1)] + AssignmentTexts(assignments[1..])
  }

  /** The statement text, with the template literals' line breaks and indentation collapsed to
      single spaces. */
  function Text(c: Command): string {
    match c
    case Insert(t, cols, slots) =>
      "INSERT INTO " + t + " (" + Join(cols, ", ") + ") VALUES (" + Join(SlotTexts(slots), ", ") + ")"
    case Update(t, asg, w) =>
      "UPDATE " + t + " SET " + Join(AssignmentTexts(asg), ", ") + " WHERE " + w + " = " + SlotText(Param)
  }

  // ---------------------------------------------------------------------------
  // Placeholders

  /** `key = ?` for each field, in order */
  function SetList(fields: seq<string>): (asg: seq<(string, Slot)>)
    ensures AssignedColumns(asg) == fields && AssignedSlots(asg) == Params(|fields|)
  {
    if fields == [] then [] else [(fields[0], Param)] + SetList(fields[1..])
  }

  function Count(s: string, c: char): nat {
    if s == [] then 0 else (if s[0] == c then 1 else 0) + Count(s[1..], c)
  }

  function ParamCount(slots: seq<Slot>): nat {
    if slots == [] then 0 else (if slots[0] == Param then 1 else 0) + ParamCount(slots[1..])
  }

  function AssignedSlots(assignments: seq<(string, Slot)>): seq<Slot> {
    if assignments == [] then [] else [assignments[0].1] + AssignedSlots(assignments[1..])
  }

  function AssignedColumns(assignments: seq<(string, Slot)>): seq<string> {
    if assignments == [] then [] else [assignments[0].0] + AssignedColumns(assignments[1..])
  }

  /** The number of `?` placeholders the command has. */
  function Arity(c: Command): nat {
    match c
    case Insert(_, _, slots) => ParamCount(slots)
    case Update(_, asg, _) => ParamCount(AssignedSlots(asg)) + 1
  }

  /** The parameters fill the placeholders exactly, and an INSERT names one column per value. */
  predicate WellFormed(s: Statement) {
    |s.params| == Arity(s.command) &&
    (s.command.Insert? ==> |s.command.columns| == |s.command.slots|)
  }

  /** Table and column names carry no `?` of their own. */
  predicate PlainNames(c: Command) {
    '?' !in c.table &&
    match c
    case Insert(_, cols, _) => forall i :: 0 <= i < |cols| ==> '?' !in cols[i]
    case Update(_, asg, w) => '?' !in w && forall i :: 0 <= i < |asg| ==> '?' !in asg[i].0
  }

  lemma {:induction false} CountAppend(a: string, b: string, c: char)
    ensures Count(a + b, c) == Count(a, c) + Count(b, c)
  {
    if a == [] {
      assert a + b == b;
    } else {
      assert (a + b)[1..] == a[1..] + b;
      CountAppend(a[1..], b, c);
    }
  }

  lemma {:induction false} CountAbsent(s: string, c: char)
    requires c !in s
    ensures Count(s, c) == 0
  {
    if s != [] { CountAbsent(s[1..], c); }
  }

  function SumCounts(parts: seq<string>, c: char): nat {
    if parts == [] then 0 else Count(parts[0], c) + SumCounts(parts[1..], c)
  }

  lemma {:induction false} CountJoin(parts: seq<string>, sep: string, c: char)
    requires c !in sep
    ensures Count(Join(parts, sep), c) == SumCounts(parts, c)
  {
    if |parts| == 1 {
      assert SumCounts(parts, c) == Count(parts[0], c) + SumCounts([], c);
    } else if |parts| > 1 {
      CountJoin(parts[1..], sep, c);
      CountAppend(parts[0] + sep, Join(parts[1..], sep), c);
      CountAppend(parts[0], sep, c);
      CountAbsent(sep, c);
    }
  }

  lemma {:induction false} NatTextPlain(n: nat)
    ensures '?' !in NatText(n)
  {
    if n >= 10 { NatTextPlain(n / 10); }
  }

  lemma {:induction false} SlotCount(s: Slot)
    ensures Count(SlotText(s), '?') == if s == Param then 1 else 0
  {
    if s.Literal? { NatTextPlain(s.n); CountAbsent(SlotText(s), '?'); }
  }

  lemma {:induction false} SlotTextsCount(slots: seq<Slot>)
    ensures SumCounts(SlotTexts(slots), '?') == ParamCount(slots)
  {
    if slots != [] { SlotTextsCount(slots[1..]); SlotCount(slots[0]); }
  }

  lemma {:induction false} ColumnsCount(cols: seq<string>)
    requires forall i :: 0 <= i < |cols| ==> '?' !in cols[i]
    ensures SumCounts(cols, '?') == 0
  {
    if cols != [] { CountAbsent(cols[0], '?'); ColumnsCount(cols[1..]); }
  }

  lemma {:induction false} AssignmentTextsCount(asg: seq<(string, Slot)>)
    requires forall i :: 0 <= i < |asg| ==> '?' !in asg[i].0
    ensures SumCounts(AssignmentTexts(asg), '?') == ParamCount(AssignedSlots(asg))
  {
    if asg != [] {
      AssignmentTextsCount(asg[1..]);
      CountAppend(asg[0].0 + " = ", SlotText(asg[0].1), '?');
      CountAppend(asg[0].0, " = ", '?');
      CountAbsent(asg[0].0, '?');
      CountAbsent(" = ", '?');
      SlotCount(asg[0].1);
    }
  }

  /** Counting over a text made of four fixed words around three variable parts. */
  lemma CountAround(k1: string, x: string, k2: string, y: string, k3: string, z: string, k4: string, c: char)
    requires c !in k1 && c !in k2 && c !in k3 && c !in k4
    ensures Count(k1 + x + k2 + y + k3 + z + k4, c) == Count(x, c) + Count(y, c) + Count(z, c)
  {
    CountAppend(k1 + x + k2 + y + k3 + z, k4, c);
    CountAppend(k1 + x + k2 + y + k3, z, c);
    CountAppend(k1 + x + k2 + y, k3, c);
    CountAppend(k1 + x + k2, y, c);
    CountAppend(k1 + x, k2, c);
    CountAppend(k1, x, c);
    CountAbsent(k1, c);
    CountAbsent(k2, c);
    CountAbsent(k3, c);
    CountAbsent(k4, c);
  }

  lemma InsertTextCount(t: string, cols: seq<string>, slots: seq<Slot>)
    requires '?' !in t && forall i :: 0 <= i < |cols| ==> '?' !in cols[i]
    ensures Count(Text(Insert(t, cols, slots)), '?') == ParamCount(slots)
  {
    var j1 := Join(cols, ", ");
    var j2 := Join(SlotTexts(slots), ", ");
    assert Count(j1, '?') == 0 by {
      CountJoin(cols, ", ", '?');
      ColumnsCount(cols);
    }
    assert Count(j2, '?') == ParamCount(slots) by {
      CountJoin(SlotTexts(slots), ", ", '?');
      SlotTextsCount(slots);
    }
    CountAround("INSERT INTO " + t + " (", [], "", j1, ") VALUES (", j2, ")", '?');
    assert "INSERT INTO " + t + " (" + [] + "" == "INSERT INTO " + t + " (";
  }

  /** The UPDATE text up to its WHERE placeholder. */
  function UpdatePrefix(t: string, j: string, w: string): string {
    "UPDATE " + t + " SET " + j + " WHERE " + w + " = "
  }

  /** The fixed words of the UPDATE text hold no `?`. */
  lemma UpdatePrefixCount(t: string, j: string, w: string)
    requires '?' !in t && '?' !in w
    ensures Count(UpdatePrefix(t, j, w), '?') == Count(j, '?')
  {
    CountAround("UPDATE ", t, " SET ", j, " WHERE ", w, " = ", '?');
    CountAbsent(t, '?');
    CountAbsent(w, '?');
  }

  /** The UPDATE text ends in the one placeholder of its WHERE clause. */
  lemma UpdateTextSplit(t: string, asg: seq<(string, Slot)>, w: string)
    ensures Count(Text(Update(t, asg, w)), '?') == Count(UpdatePrefix(t, Join(AssignmentTexts(asg), ", "), w), '?') + 1
  {
    var prefix := UpdatePrefix(t, Join(AssignmentTexts(asg), ", "), w);
    assert Text(Update(t, asg, w)) == prefix + SlotText(Param);
    SlotCount(Param);
    CountAppend(prefix, SlotText(Param), '?');
  }

  lemma UpdateTextCount(t: string, asg: seq<(string, Slot)>, w: string)
    requires '?' !in t && '?' !in w && forall i :: 0 <= i < |asg| ==> '?' !in asg[i].0
    ensures Count(Text(Update(t, asg, w)), '?') == ParamCount(AssignedSlots(asg)) + 1
  {
    var j := Join(AssignmentTexts(asg), ", ");
    assert Count(j, '?') == ParamCount(AssignedSlots(asg)) by {
      CountJoin(AssignmentTexts(asg), ", ", '?');
      AssignmentTextsCount(asg);
    }
    UpdatePrefixCount(t, j, w);
    UpdateTextSplit(t, asg, w);
  }

  /** One `?` in the text per placeholder of the command. */
  lemma PlaceholderCount(c: Command)
    requires PlainNames(c)
    ensures Count(Text(c), '?') == Arity(c)
  {
    match c
    case Insert(t, cols, slots) => InsertTextCount(t, cols, slots);
    case Update(t, asg, w) => UpdateTextCount(t, asg, w);
  }

  // ---------------------------------------------------------------------------
  // Effect on a table

  datatype SqlError =
    | UnboundValue   // sql.js refuses to bind `undefined`
    | CheckFailed    // a `NOT NULL` or `CHECK (column IN (...))` constraint
    | DuplicateKey   // the `id TEXT PRIMARY KEY` constraint
    | NoSuchTable    // the statement names a table the database lacks
    | SyntaxError    // the statement text does not parse

  /** A column constraint of the schema: `NOT NULL`, or `CHECK (column IN (...))`, which SQL
      lets pass when the column is NULL. */
  datatype Check = NotNull(column: string) | In(column: string, allowed: seq<Value>)

  /** A value that is not NULL; a column the row does not hold reads as NULL. */
  predicate Present(v: Value) {
    v != Null && v != Undefined
  }

  predicate Holds(c: Check, v: Value) {
    match c
    case NotNull(_) => Present(v)
    case In(_, allowed) => !Present(v) || v in allowed
  }

  predicate Satisfies(row: Record, c: Check) {
    Holds(c, Get(row, c.column))
  }

  predicate Admits(checks: seq<Check>, row: Record) {
    forall i :: 0 <= i < |checks| ==> Satisfies(row, checks[i])
  }

  /** `NOT NULL` on each of the columns. */
  function NotNulls(columns: seq<string>): seq<Check> {
    seq(|columns|, i requires 0 <= i < |columns| => NotNull(columns[i]))
  }

  lemma AdmitsAppend(a: seq<Check>, b: seq<Check>, row: Record)
    ensures Admits(a + b, row) <==> Admits(a, row) && Admits(b, row)
  {
    if Admits(a, row) && Admits(b, row) {
      forall i | 0 <= i < |a + b| ensures Satisfies(row, (a + b)[i]) {
        if i >= |a| { assert (a + b)[i] == b[i - |a|]; }
      }
    }
    if Admits(a + b, row) {
      forall i | 0 <= i < |a| ensures Satisfies(row, a[i]) {
        assert (a + b)[i] == a[i];
      }
      forall i | 0 <= i < |b| ensures Satisfies(row, b[i]) {
        assert (a + b)[|a| + i] == b[i];
      }
    }
  }

  lemma AdmitsNotNulls(columns: seq<string>, row: Record)
    ensures Admits(NotNulls(columns), row) <==> forall i :: 0 <= i < |columns| ==> Present(Get(row, columns[i]))
  {
    if Admits(NotNulls(columns), row) {
      forall i | 0 <= i < |columns| ensures Present(Get(row, columns[i])) {
        assert Satisfies(row, NotNulls(columns)[i]);
      }
    }
  }

  /** What the engine stores for a bound value: booleans are bound as the numbers 0 and 1. */
  function Stored(v: Value): Value {
    if v.Bool? then Num(if v.b then 1.0 else 0.0) else v
  }

  /** The values of the slots, consuming the parameters left to right. */
  function Bind(slots: seq<Slot>, params: seq<Value>): (vs: seq<Value>)
    requires |params| == ParamCount(slots)
    ensures |vs| == |slots|
  {
    if slots == [] then []
    else match slots[0]
      case Param => [Stored(params[0])] + Bind(slots[1..], params[1..])
      case Literal(n) => [Num(n as real)] + Bind(slots[1..], params)
  }

  function Zip(columns: seq<string>, values: seq<Value>): (r: Record)
    requires |columns| == |values|
    ensures Keys(r) == columns
    ensures forall i :: 0 <= i < |r| ==> r[i] == (columns[i], values[i])
  {
    if columns == [] then [] else [(columns[0], values[0])] + Zip(columns[1..], values[1..])
  }

  /** n placeholders in a row. */
  function Params(n: nat): (slots: seq<Slot>)
    ensures |slots| == n && ParamCount(slots) == n
  {
    if n == 0 then [] else [Param] + Params(n - 1)
  }

  /** Placeholders followed by one literal: the literal's number follows the bound parameters. */
  lemma {:induction false} BindLiteralLast(n: nat, params: seq<Value>, m: nat)
    requires |params| == n
    ensures ParamCount(Params(n) + [Literal(m)]) == n
    ensures Bind(Params(n) + [Literal(m)], params) == Bind(Params(n), params) + [Num(m as real)]
  {
    if n == 0 {
      assert Params(n) + [Literal(m)] == [Literal(m)];
    } else {
      BindLiteralLast(n - 1, params[1..], m);
      assert (Params(n) + [Literal(m)])[1..] == Params(n - 1) + [Literal(m)];
    }
  }

  /** Binding parameters to placeholders only: each slot takes its own parameter. */
  lemma {:induction false} BindParams(n: nat, params: seq<Value>)
    requires |params| == n
    ensures |Bind(Params(n), params)| == n
    ensures forall i :: 0 <= i < n ==> Bind(Params(n), params)[i] == Stored(params[i])
  {
    if n > 0 {
      BindParams(n - 1, params[1..]);
      assert Params(n)[1..] == Params(n - 1);
    }
  }

  /** SQL `=`: NULL equals nothing. */
  predicate SqlEquals(a: Value, b: Value) {
    a == b && a != Null && a != Undefined
  }

  const PrimaryKey := "id"

  /** The row that `INSERT` adds. */
  function InsertedRow(s: Statement): Record
    requires WellFormed(s) && s.command.Insert?
  {
    Zip(s.command.columns, Bind(s.command.slots, s.params))
  }

  /** The `SET` list of an `UPDATE` with its values bound, in the order written. */
  function Assigned(s: Statement): Record
    requires WellFormed(s) && s.command.Update?
  {
    var asg := s.command.assignments;
    AssignedLength(asg);
    Zip(AssignedColumns(asg), Bind(AssignedSlots(asg), s.params[..|s.params| - 1]))
  }

  /** The value the `WHERE` clause compares with: the last parameter. */
  function WhereValue(s: Statement): Value
    requires WellFormed(s) && s.command.Update?
  {
    s.params[|s.params| - 1]
  }

  lemma {:induction false} AssignedLength(asg: seq<(string, Slot)>)
    ensures |AssignedColumns(asg)| == |AssignedSlots(asg)| == |asg|
  {
    if asg != [] { AssignedLength(asg[1..]); }
  }

  /** The value of the last property named k. */
  function GetLast(r: Record, k: string): Value {
    if r == [] then Undefined
    else if HasKey(r[1..], k) then GetLast(r[1..], k)
    else if r[0].0 == k then r[0].1
    else Undefined
  }

  lemma {:induction false} GetLastAppend(a: Record, b: Record, k: string)
    ensures GetLast(a + b, k) == if HasKey(b, k) then GetLast(b, k) else GetLast(a, k)
  {
    if a == [] {
      assert a + b == b;
    } else {
      assert (a + b)[1..] == a[1..] + b;
      GetLastAppend(a[1..], b, k);
      GetAppend(a[1..], b, k);
    }
  }

  /** In a plain object, whose keys are distinct, the last property named k is the only one. */
  lemma {:induction false} GetLastUnique(r: Record, k: string)
    requires UniqueKeys(r)
    ensures GetLast(r, k) == Get(r, k)
  {
    if r != [] {
      GetLastUnique(r[1..], k);
      if !HasKey(r[1..], k) { GetAbsent(r[1..], k); }
    }
  }

  /** The assignments made one after another, so that of two to one column the later wins. */
  function Assign(row: Record, asg: Record): Record
    decreases |asg|
  {
    if asg == [] then row else Assign(Overlay(row, [asg[0]]), asg[1..])
  }

  lemma {:induction false} GetAssign(row: Record, asg: Record, k: string)
    ensures HasKey(Assign(row, asg), k) == (HasKey(row, k) || HasKey(asg, k))
    ensures Get(Assign(row, asg), k) == if HasKey(asg, k) then GetLast(asg, k) else Get(row, k)
    decreases |asg|
  {
    if asg != [] {
      GetAssign(Overlay(row, [asg[0]]), asg[1..], k);
      GetOverlay(row, [asg[0]], k);
    }
  }

  predicate Selected(row: Record, s: Statement)
    requires WellFormed(s) && s.command.Update?
  {
    SqlEquals(Get(row, s.command.whereColumn), Stored(WhereValue(s)))
  }

  /** The rows after an `UPDATE`: those its `WHERE` clause selects take the assignments. */
  function Updated(rows: seq<Record>, s: Statement): (r: seq<Record>)
    requires WellFormed(s) && s.command.Update?
    ensures |r| == |rows|
  {
    seq(|rows|, j requires 0 <= j < |rows| => if Selected(rows[j], s) then Assign(rows[j], Assigned(s)) else rows[j])
  }

  predicate Clashes(row: Record, other: Record) {
    SqlEquals(Get(row, PrimaryKey), Get(other, PrimaryKey))
  }

  /** No two rows share a primary key. */
  predicate DistinctKeys(rows: seq<Record>) {
    forall i, j :: 0 <= i < j < |rows| ==> !Clashes(rows[i], rows[j])
  }

  /** What the engine keeps true of every table: distinct keys, every row passing the checks. */
  predicate Consistent(rows: seq<Record>, checks: seq<Check>) {
    DistinctKeys(rows) && forall j :: 0 <= j < |rows| ==> Admits(checks, rows[j])
  }

  /** Running a statement against a table held in rowid order, under the table's checks. */
  function Run(rows: seq<Record>, checks: seq<Check>, s: Statement): Result<seq<Record>, SqlError>
    requires WellFormed(s)
  {
    if Undefined in s.params then Err(UnboundValue)
    else if s.command.Insert? then
      var row := InsertedRow(s);
      if !Admits(checks, row) then Err(CheckFailed)
      else if exists j :: 0 <= j < |rows| && Clashes(rows[j], row) then Err(DuplicateKey)
      else Ok(rows + [row])
    else
      var updated := Updated(rows, s);
      if exists j :: 0 <= j < |rows| && Selected(rows[j], s) && !Admits(checks, updated[j]) then Err(CheckFailed)
      else if !DistinctKeys(updated) then Err(DuplicateKey)
      else Ok(updated)
  }

  /** An INSERT appends exactly one row and keeps the others; an UPDATE changes exactly the
      rows its WHERE clause selects, each column taking its last assignment. */
  lemma RunEffect(rows: seq<Record>, checks: seq<Check>, s: Statement)
    requires WellFormed(s) && Undefined !in s.params
    ensures s.command.Insert? ==>
      (Run(rows, checks, s).Ok? <==>
        Admits(checks, InsertedRow(s)) && forall j :: 0 <= j < |rows| ==> !Clashes(rows[j], InsertedRow(s)))
    ensures s.command.Insert? && Run(rows, checks, s).Ok? ==> Run(rows, checks, s).value == rows + [InsertedRow(s)]
    ensures s.command.Update? && Run(rows, checks, s).Ok? ==>
      |Run(rows, checks, s).value| == |rows| &&
      forall j, k :: 0 <= j < |rows| ==>
        Get(Run(rows, checks, s).value[j], k) ==
          if Selected(rows[j], s) && HasKey(Assigned(s), k) then GetLast(Assigned(s), k) else Get(rows[j], k)
  {
    if s.command.Update? && Run(rows, checks, s).Ok? {
      forall j, k | 0 <= j < |rows| ensures Get(Run(rows, checks, s).value[j], k) ==
        if Selected(rows[j], s) && HasKey(Assigned(s), k) then GetLast(Assigned(s), k) else Get(rows[j], k)
      {
        RunUpdateAt(rows, checks, s, j, k);
      }
    }
  }

  lemma RunUpdateLength(rows: seq<Record>, checks: seq<Check>, s: Statement)
    requires WellFormed(s) && s.command.Update? && Run(rows, checks, s).Ok?
    ensures |Run(rows, checks, s).value| == |rows|
  {
  }

  /** One column of one row after a successful UPDATE. */
  lemma RunUpdateAt(rows: seq<Record>, checks: seq<Check>, s: Statement, j: int, k: string)
    requires WellFormed(s) && s.command.Update? && Run(rows, checks, s).Ok? && 0 <= j < |rows|
    ensures |Run(rows, checks, s).value| == |rows|
    ensures Get(Run(rows, checks, s).value[j], k) ==
      if Selected(rows[j], s) && HasKey(Assigned(s), k) then GetLast(Assigned(s), k) else Get(rows[j], k)
  {
    UpdatedAt(rows, s, j, k);
  }

  lemma UpdatedAt(rows: seq<Record>, s: Statement, j: int, k: string)
    requires WellFormed(s) && s.command.Update? && 0 <= j < |rows|
    ensures Get(Updated(rows, s)[j], k) ==
      if Selected(rows[j], s) && HasKey(Assigned(s), k) then GetLast(Assigned(s), k) else Get(rows[j], k)
  {
    GetAssign(rows[j], Assigned(s), k);
  }

  /** A row an UPDATE rewrites still passes each constraint on a column it does not assign,
      and passes the others when the assigned values do. */
  lemma AdmitsUpdated(rows: seq<Record>, checks: seq<Check>, s: Statement, j: int)
    requires WellFormed(s) && s.command.Update? && 0 <= j < |rows| && Admits(checks, rows[j])
    requires forall i :: 0 <= i < |checks| && HasKey(Assigned(s), checks[i].column) ==>
      Holds(checks[i], GetLast(Assigned(s), checks[i].column))
    ensures Admits(checks, Updated(rows, s)[j])
  {
    forall i | 0 <= i < |checks| ensures Satisfies(Updated(rows, s)[j], checks[i]) {
      UpdatedAt(rows, s, j, checks[i].column);
    }
  }

  /** An UPDATE that leaves the primary key alone and whose new rows pass the checks succeeds
      on a consistent table once every parameter is bound. */
  lemma UpdateAccepted(rows: seq<Record>, checks: seq<Check>, s: Statement)
    requires WellFormed(s) && s.command.Update? && Consistent(rows, checks) && Undefined !in s.params
    requires !HasKey(Assigned(s), PrimaryKey)
    requires forall j :: 0 <= j < |rows| && Selected(rows[j], s) ==> Admits(checks, Updated(rows, s)[j])
    ensures Run(rows, checks, s).Ok?
  {
    var u := Updated(rows, s);
    forall j | 0 <= j < |rows| ensures Get(u[j], PrimaryKey) == Get(rows[j], PrimaryKey) {
      UpdatedAt(rows, s, j, PrimaryKey);
    }
    assert DistinctKeys(u) by {
      forall i, j | 0 <= i < j < |u| ensures !Clashes(u[i], u[j]) {
        assert !Clashes(rows[i], rows[j]);
      }
    }
  }

  /** A statement that succeeds leaves a consistent table consistent. */
  lemma RunConsistent(rows: seq<Record>, checks: seq<Check>, s: Statement)
    requires WellFormed(s) && Consistent(rows, checks) && Run(rows, checks, s).Ok?
    ensures Consistent(Run(rows, checks, s).value, checks)
  {
    if s.command.Insert? {
      var r := rows + [InsertedRow(s)];
      forall i, j | 0 <= i < j < |r| ensures !Clashes(r[i], r[j]) {
        if j == |rows| {
          assert r[i] == rows[i];
        } else {
          assert r[i] == rows[i] && r[j] == rows[j];
        }
      }
    } else {
      var u := Updated(rows, s);
      forall j | 0 <= j < |u| ensures Admits(checks, u[j]) {
        if !Selected(rows[j], s) { assert u[j] == rows[j]; }
      }
    }
  }

  // ---------------------------------------------------------------------------
  // Reading a table

  /** `SELECT * FROM t WHERE column = ?`: the rows, in rowid order, whose column equals the
      bound value. */
  function Where(rows: seq<Record>, column: string, v: Value): (r: seq<Record>)
    ensures |r| <= |rows|
    ensures forall x :: x in r <==> x in rows && SqlEquals(Get(x, column), Stored(v))
  {
    if rows == [] then []
    else (if SqlEquals(Get(rows[0], column), Stored(v)) then [rows[0]] else []) + Where(rows[1..], column, v)
  }

  /** The first row selected is the first row of the table that matches. */
  lemma {:induction false} WhereFirst(rows: seq<Record>, column: string, v: Value, j: nat)
    requires j < |rows| && SqlEquals(Get(rows[j], column), Stored(v))
    requires forall i :: 0 <= i < j ==> !SqlEquals(Get(rows[i], column), Stored(v))
    ensures Where(rows, column, v) != [] && Where(rows, column, v)[0] == rows[j]
  {
    if j > 0 {
      assert !SqlEquals(Get(rows[0], column), Stored(v));
      forall i | 0 <= i < j - 1 ensures !SqlEquals(Get(rows[1..][i], column), Stored(v)) {
        assert rows[1..][i] == rows[i + 1];
      }
      WhereFirst(rows[1..], column, v, j - 1);
    }
  }

  lemma {:induction false} WhereNone(rows: seq<Record>, column: string, v: Value)
    requires forall j :: 0 <= j < |rows| ==> !SqlEquals(Get(rows[j], column), Stored(v))
    ensures Where(rows, column, v) == []
  {
    if rows != [] {
      assert forall j :: 0 <= j < |rows[1..]| ==> rows[1..][j] == rows[j + 1];
      WhereNone(rows[1..], column, v);
    }
  }

  /** Under the primary key, selecting by key finds at most one row. */
  lemma {:induction false} WhereKeyUnique(rows: seq<Record>, v: Value)
    requires DistinctKeys(rows)
    ensures |Where(rows, PrimaryKey, v)| <= 1
  {
    if rows != [] {
      var tail := rows[1..];
      assert DistinctKeys(tail) by {
        forall i, j | 0 <= i < j < |tail| ensures !Clashes(tail[i], tail[j]) {
          assert tail[i] == rows[i + 1] && tail[j] == rows[j + 1];
        }
      }
      WhereKeyUnique(tail, v);
      if SqlEquals(Get(rows[0], PrimaryKey), Stored(v)) {
        forall j | 0 <= j < |tail| ensures !SqlEquals(Get(tail[j], PrimaryKey), Stored(v)) {
          assert !Clashes(rows[0], rows[j + 1]);
        }
        WhereNone(tail, PrimaryKey, v);
      }
    }
  }
}
