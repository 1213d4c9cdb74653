/** The persistent data layer: the statements `projectsDb`, `donationsDb` and
    `contactMessagesDb` issue, the records they return, and the tables they change. */
module Database {
  import opened Values
  import opened Tables
  import opened Sql
  import opened Uuid

  // ---------------------------------------------------------------------------
  // Status enumerations and the schema's CHECK constraints

  datatype ProjectStatus = Active | Completed | Upcoming

  datatype DonationStatus = Pending | Verified | Cancelled

  function ProjectStatusName(s: ProjectStatus): string {
    match s
    case Active => "active"
    case Completed => "completed"
    case Upcoming => "upcoming"
  }

  function DonationStatusName(s: DonationStatus): string {
    match s
    case Pending => "pending"
    case Verified => "verified"
    case Cancelled => "cancelled"
  }

  function ParseProjectStatus(v: Value): Option<ProjectStatus> {
    if v == Str("active") then Some(Active)
    else if v == Str("completed") then Some(Completed)
    else if v == Str("upcoming") then Some(Upcoming)
    else None
  }

  function ParseDonationStatus(v: Value): Option<DonationStatus> {
    if v == Str("pending") then Some(Pending)
    else if v == Str("verified") then Some(Verified)
    else if v == Str("cancelled") then Some(Cancelled)
    else None
  }

  /** A status name reads back as that status, and only a status name reads as a status. */
  lemma ProjectStatusRoundTrip(s: ProjectStatus, v: Value)
    ensures ParseProjectStatus(Str(ProjectStatusName(s))) == Some(s)
    ensures ParseProjectStatus(v) == Some(s) ==> v == Str(ProjectStatusName(s))
  {
  }

  lemma DonationStatusRoundTrip(s: DonationStatus, v: Value)
    ensures ParseDonationStatus(Str(DonationStatusName(s))) == Some(s)
    ensures ParseDonationStatus(v) == Some(s) ==> v == Str(DonationStatusName(s))
  {
  }

  /** The columns each table declares `NOT NULL`. */
  const ProjectRequired: seq<string> := ["title", "description", "image_url", "target", "start_date", "status"]
  const DonationRequired: seq<string> := ["name", "email", "amount", "transfer_confirmation", "status"]
  const MessageRequired: seq<string> := ["name", "email", "message"]

  const ProjectChecks: seq<Check> :=
    NotNulls(ProjectRequired) + [In("status", [Str("active"), Str("completed"), Str("upcoming")])]
  const DonationChecks: seq<Check> :=
    NotNulls(DonationRequired) + [In("status", [Str("pending"), Str("verified"), Str("cancelled")])]
  const MessageChecks: seq<Check> := NotNulls(MessageRequired) + [In("responded", [Num(0.0), Num(1.0)])]

  /** A project row passes the schema exactly when its required columns are set and its status
      is a status name. */
  lemma ProjectChecksMeaning(row: Record)
    ensures Admits(ProjectChecks, row) <==>
      && (forall i :: 0 <= i < |ProjectRequired| ==> Present(Get(row, ProjectRequired[i])))
      && ParseProjectStatus(Get(row, "status")).Some?
  {
    var last := [In("status", [Str("active"), Str("completed"), Str("upcoming")])];
    AdmitsAppend(NotNulls(ProjectRequired), last, row);
    AdmitsNotNulls(ProjectRequired, row);
    assert Admits(last, row) <==> Satisfies(row, last[0]);
    assert ProjectRequired[5] == "status";
  }

  lemma DonationChecksMeaning(row: Record)
    ensures Admits(DonationChecks, row) <==>
      && (forall i :: 0 <= i < |DonationRequired| ==> Present(Get(row, DonationRequired[i])))
      && ParseDonationStatus(Get(row, "status")).Some?
  {
    var last := [In("status", [Str("pending"), Str("verified"), Str("cancelled")])];
    AdmitsAppend(NotNulls(DonationRequired), last, row);
    AdmitsNotNulls(DonationRequired, row);
    assert Admits(last, row) <==> Satisfies(row, last[0]);
    assert DonationRequired[4] == "status";
  }

  /** A message row passes the schema exactly when its required columns are set and
      `responded` is NULL, 0 or 1. */
  lemma MessageChecksMeaning(row: Record)
    ensures Admits(MessageChecks, row) <==>
      && (forall i :: 0 <= i < |MessageRequired| ==> Present(Get(row, MessageRequired[i])))
      && var v := Get(row, "responded"); !Present(v) || v == Num(0.0) || v == Num(1.0)
  {
    var last := [In("responded", [Num(0.0), Num(1.0)])];
    AdmitsAppend(NotNulls(MessageRequired), last, row);
    AdmitsNotNulls(MessageRequired, row);
    assert Admits(last, row) <==> Satisfies(row, last[0]);
  }

  // ---------------------------------------------------------------------------
  // Shared pieces of the create operations

  /** `[record.a, record.b, ...]` */
  function Fields(r: Record, ks: seq<string>): seq<Value> {
    seq(|ks|, i requires 0 <= i < |ks| => Get(r, ks[i]))
  }

  /** `{ id, ...input, ...stamps }`: the object a create returns. */
  function Created(id: string, input: Record, stamps: Record): Record {
    Overlay(Overlay([("id", Str(id))], input), stamps)
  }

  /** The returned object has the fresh id, the stamps, and the input's other properties. */
  lemma GetCreated(id: string, input: Record, stamps: Record, k: string)
    requires !HasKey(input, "id")
    ensures Get(Created(id, input, stamps), k) ==
      if HasKey(stamps, k) then Get(stamps, k)
      else if k == "id" then Str(id)
      else Get(input, k)
    ensures HasKey(Created(id, input, stamps), k) == (HasKey(stamps, k) || k == "id" || HasKey(input, k))
  {
    GetOverlay(Overlay([("id", Str(id))], input), stamps, k);
    GetOverlay([("id", Str(id))], input, k);
    if k != "id" && !HasKey(input, k) { GetAbsent(input, k); }
  }

  lemma FieldsAppend(r: Record, a: seq<string>, b: seq<string>)
    ensures Fields(r, a + b) == Fields(r, a) + Fields(r, b)
  {
  }

  /** Reading plain input fields off the returned object reads them off the input. */
  lemma CreatedFields(id: string, input: Record, stamps: Record, ks: seq<string>)
    requires !HasKey(input, "id")
    requires forall i :: 0 <= i < |ks| ==> ks[i] != "id" && !HasKey(stamps, ks[i])
    ensures Fields(Created(id, input, stamps), ks) == Fields(input, ks)
  {
    forall i | 0 <= i < |ks| ensures Get(Created(id, input, stamps), ks[i]) == Get(input, ks[i]) {
      GetCreated(id, input, stamps, ks[i]);
    }
  }

  /** The stamps `created_at` and `updated_at` */
  function Stamps(now: string): Record {
    [("created_at", Str(now)), ("updated_at", Str(now))]
  }

  lemma StampKeys(now: string, k: string)
    ensures HasKey(Stamps(now), k) <==> k == "created_at" || k == "updated_at"
    ensures HasKey(Stamps(now), k) ==> Get(Stamps(now), k) == Str(now)
  {
    var tail: Record := [("updated_at", Str(now))];
    assert Stamps(now)[1..] == tail;
    assert HasKey(Stamps(now), k) == (k == "created_at" || HasKey(tail, k));
    assert tail[1..] == [];
    assert HasKey(tail, k) == (k == "updated_at" || HasKey([], k));
  }

  /** The row an all-placeholder INSERT adds: column i takes parameter i as stored. */
  lemma InsertedParams(t: string, cols: seq<string>, params: seq<Value>)
    requires |cols| == |params|
    ensures WellFormed(Statement(Insert(t, cols, Params(|cols|)), params))
    ensures var row := InsertedRow(Statement(Insert(t, cols, Params(|cols|)), params));
      |row| == |cols| && forall i :: 0 <= i < |cols| ==> row[i] == (cols[i], Stored(params[i]))
  {
    BindParams(|cols|, params);
  }

  /** The same with a trailing literal column: it holds the literal's number. */
  lemma InsertedLiteral(t: string, cols: seq<string>, last: string, params: seq<Value>, m: nat)
    requires |cols| == |params|
    ensures WellFormed(Statement(Insert(t, cols + [last], Params(|cols|) + [Literal(m)]), params))
    ensures var row := InsertedRow(Statement(Insert(t, cols + [last], Params(|cols|) + [Literal(m)]), params));
      && |row| == |cols| + 1
      && (forall i :: 0 <= i < |cols| ==> row[i] == (cols[i], Stored(params[i])))
      && row[|cols|] == (last, Num(m as real))
  {
    BindLiteralLast(|cols|, params, m);
    BindParams(|cols|, params);
  }

  // ---------------------------------------------------------------------------
  // projectsDb.create

  const ProjectFields: seq<string> :=
    ["title", "description", "image_url", "target", "raised", "start_date", "end_date", "status"]
  const ProjectColumns: seq<string> := ["id"] + ProjectFields + ["created_at", "updated_at"]

  lemma ProjectFieldsPlain(now: string)
    ensures forall i :: 0 <= i < |ProjectFields| ==> ProjectFields[i] != "id" && !HasKey(Stamps(now), ProjectFields[i])
  {
    forall i | 0 <= i < |ProjectFields| ensures ProjectFields[i] != "id" && !HasKey(Stamps(now), ProjectFields[i]) {
      StampKeys(now, ProjectFields[i]);
    }
  }

  function ProjectInsert(id: string, project: Record, now: string): (s: Statement)
    ensures WellFormed(s) && s.command.Insert?
  {
    InsertedParams("projects", ProjectColumns, [Str(id)] + Fields(project, ProjectFields) + [Str(now), Str(now)]);
    Statement(Insert("projects", ProjectColumns, Params(|ProjectColumns|)),
              [Str(id)] + Fields(project, ProjectFields) + [Str(now), Str(now)])
  }

  lemma ProjectColumnsPlain()
    ensures forall i :: 0 <= i < |ProjectColumns| ==> '?' !in ProjectColumns[i]
  {
  }

  /** No column name holds a `?`, so the text has one `?` per parameter. */
  lemma ProjectInsertText(id: string, project: Record, now: string)
    ensures Count(Text(ProjectInsert(id, project, now).command), '?') == |ProjectInsert(id, project, now).params|
  {
    ProjectColumnsPlain();
    InsertTextCount("projects", ProjectColumns, Params(|ProjectColumns|));
  }

  /** `{ id, ...project, created_at: now, updated_at: now }` */
  function CreatedProject(id: string, project: Record, now: string): Record {
    Created(id, project, Stamps(now))
  }

  /** The created project carries the fresh id, `created_at` and `updated_at` both `now`, and
      otherwise exactly the input's properties. */
  lemma CreatedProjectShape(id: string, project: Record, now: string, k: string)
    requires !HasKey(project, "id")
    ensures var created := CreatedProject(id, project, now);
      && Get(created, "id") == Str(id)
      && Get(created, "created_at") == Str(now) && Get(created, "updated_at") == Str(now)
      && (k != "id" && k != "created_at" && k != "updated_at" ==>
            Get(created, k) == Get(project, k) && HasKey(created, k) == HasKey(project, k))
  {
    GetCreated(id, project, Stamps(now), "id");
    GetCreated(id, project, Stamps(now), "created_at");
    GetCreated(id, project, Stamps(now), "updated_at");
    GetCreated(id, project, Stamps(now), k);
    StampKeys(now, "id");
    StampKeys(now, k);
  }

  /** One placeholder per column, and the row stored holds, column by column, what the
      returned object holds. */
  lemma ProjectCreateRoundTrip(id: string, project: Record, now: string)
    requires !HasKey(project, "id")
    ensures var s := ProjectInsert(id, project, now);
      && WellFormed(s)
      && |InsertedRow(s)| == |ProjectColumns|
      && forall i :: 0 <= i < |ProjectColumns| ==>
           InsertedRow(s)[i] == (ProjectColumns[i], Stored(Get(CreatedProject(id, project, now), ProjectColumns[i])))
  {
    var created := CreatedProject(id, project, now);
    var s := ProjectInsert(id, project, now);
    CreatedProjectShape(id, project, now, "id");
    ProjectFieldsPlain(now);
    CreatedFields(id, project, Stamps(now), ProjectFields);
    FieldsAppend(created, ["id"] + ProjectFields, ["created_at", "updated_at"]);
    FieldsAppend(created, ["id"], ProjectFields);
    assert Fields(created, ["id"]) == [Str(id)];
    assert Fields(created, ["created_at", "updated_at"]) == [Str(now), Str(now)];
    assert s.params == Fields(created, ProjectColumns);
    InsertedParams("projects", ProjectColumns, s.params);
  }

  // ---------------------------------------------------------------------------
  // projectsDb.update

  /** `Object.keys(updates).filter(key => key !== 'id')` */
  function KeysWithoutId(keys: seq<string>): seq<string> {
    if keys == [] then [] else (if keys[0] == "id" then [] else [keys[0]]) + KeysWithoutId(keys[1..])
  }

  /** `Object.entries(updates).filter(([key]) => key !== 'id')` */
  function EntriesWithoutId(r: Record): Record {
    if r == [] then [] else (if r[0].0 == "id" then [] else [r[0]]) + EntriesWithoutId(r[1..])
  }

  /** The statement `projectsDb.update(id, updates)` issues, or None when it returns early. */
  function ProjectUpdate(id: Value, updates: Record, now: string): (r: Option<Statement>)
    ensures r.Some? ==> WellFormed(r.value) && r.value.command.Update?
  {
    var fields := KeysWithoutId(Keys(updates));
    var values := ValuesOf(EntriesWithoutId(updates));
    KeysAligned(updates);
    if |fields| == 0 then None
    else Some(Statement(Update("projects", SetList(fields + ["updated_at"]), "id"), values + [Str(now), id]))
  }

  /** Dropping `id` keeps every other property, in order, and nothing named `id`. */
  lemma {:induction false} EntriesWithoutIdSpec(r: Record, k: string)
    ensures forall i :: 0 <= i < |EntriesWithoutId(r)| ==> EntriesWithoutId(r)[i].0 != "id"
    ensures k != "id" ==> HasKey(EntriesWithoutId(r), k) == HasKey(r, k) && Get(EntriesWithoutId(r), k) == Get(r, k)
    ensures UniqueKeys(r) ==> UniqueKeys(EntriesWithoutId(r))
    ensures |EntriesWithoutId(r)| == 0 <==> forall i :: 0 <= i < |r| ==> r[i].0 == "id"
  {
    if r != [] {
      EntriesWithoutIdSpec(r[1..], k);
      var head: Record := if r[0].0 == "id" then [] else [r[0]];
      GetAppend(head, EntriesWithoutId(r[1..]), k);
      if r[0].0 != "id" {
        EntriesWithoutIdSpec(r[1..], r[0].0);
        assert EntriesWithoutId(r)[1..] == EntriesWithoutId(r[1..]);
      } else {
        assert EntriesWithoutId(r) == EntriesWithoutId(r[1..]);
      }
      if forall i :: 1 <= i < |r| ==> r[i].0 == "id" {
        assert forall i :: 0 <= i < |r[1..]| ==> r[1..][i].0 == "id" by {
          forall i | 0 <= i < |r[1..]| ensures r[1..][i].0 == "id" { assert r[1..][i] == r[i + 1]; }
        }
      } else {
        var i :| 1 <= i < |r| && r[i].0 != "id";
        assert r[1..][i - 1] == r[i];
      }
    }
  }

  /** Filtering distributes over concatenation: the kept properties stay in their order. */
  lemma {:induction false} EntriesWithoutIdAppend(a: Record, b: Record)
    ensures EntriesWithoutId(a + b) == EntriesWithoutId(a) + EntriesWithoutId(b)
  {
    if a == [] {
      assert a + b == b;
    } else {
      assert (a + b)[1..] == a[1..] + b;
      EntriesWithoutIdAppend(a[1..], b);
    }
  }

  /** The field list and the value list are filtered separately, yet stay aligned. */
  lemma {:induction false} KeysAligned(r: Record)
    ensures KeysWithoutId(Keys(r)) == Keys(EntriesWithoutId(r))
  {
    if r != [] {
      KeysAligned(r[1..]);
      assert Keys(r)[1..] == Keys(r[1..]);
    }
  }

  /** `fields.length === 0` exactly when every key is `id`; otherwise the SET list names the
      kept keys in order, then `updated_at`, each with its own placeholder, and the parameters
      are the kept values in the same order, then `now`, then the target id. */
  lemma ProjectUpdateShape(id: Value, updates: Record, now: string)
    ensures ProjectUpdate(id, updates, now).None? <==> forall i :: 0 <= i < |updates| ==> updates[i].0 == "id"
    ensures ProjectUpdate(id, updates, now).Some? ==>
      var s := ProjectUpdate(id, updates, now).value;
      var kept := EntriesWithoutId(updates);
      && WellFormed(s)
      && s.command == Update("projects", s.command.assignments, "id")
      && AssignedColumns(s.command.assignments) == Keys(kept) + ["updated_at"]
      && |s.params| == |kept| + 2
      && (forall i :: 0 <= i < |kept| ==> s.params[i] == kept[i].1)
      && s.params[|kept|] == Str(now) && s.params[|kept| + 1] == id
  {
    EntriesWithoutIdSpec(updates, "id");
    KeysAligned(updates);
  }

  /** With key names free of `?`, the text has one `?` per parameter. */
  lemma ProjectUpdateText(id: Value, updates: Record, now: string)
    requires forall i :: 0 <= i < |updates| ==> '?' !in updates[i].0
    requires ProjectUpdate(id, updates, now).Some?
    ensures var s := ProjectUpdate(id, updates, now).value; Count(Text(s.command), '?') == |s.params|
  {
    var s := ProjectUpdate(id, updates, now).value;
    var fields := KeysWithoutId(Keys(updates));
    KeysWithoutIdPlain(Keys(updates));
    var asg := s.command.assignments;
    assert forall i :: 0 <= i < |asg| ==> '?' !in asg[i].0 by {
      forall i | 0 <= i < |asg| ensures '?' !in asg[i].0 {
        assert asg[i].0 == AssignedColumns(asg)[i] by { AssignedColumnsAt(asg, i); }
        if i < |fields| { assert (fields + ["updated_at"])[i] == fields[i]; }
      }
    }
    PlaceholderCount(s.command);
    ProjectUpdateShape(id, updates, now);
  }

  lemma {:induction false} AssignedColumnsAt(asg: seq<(string, Slot)>, i: int)
    requires 0 <= i < |asg|
    ensures |AssignedColumns(asg)| == |asg| && AssignedColumns(asg)[i] == asg[i].0
  {
    AssignedLength(asg);
    if i > 0 { AssignedColumnsAt(asg[1..], i - 1); }
  }

  lemma {:induction false} KeysWithoutIdPlain(keys: seq<string>)
    requires forall i :: 0 <= i < |keys| ==> '?' !in keys[i]
    ensures forall i :: 0 <= i < |KeysWithoutId(keys)| ==> '?' !in KeysWithoutId(keys)[i]
  {
    if keys != [] {
      KeysWithoutIdPlain(keys[1..]);
    }
  }

  /** Each property with its value as the engine stores it. */
  function StoredAll(r: Record): (out: Record)
    ensures |out| == |r|
  {
    if r == [] then [] else [(r[0].0, Stored(r[0].1))] + StoredAll(r[1..])
  }

  /** Entry i of the stored copy. */
  lemma {:induction false} StoredAllAt(r: Record, i: nat)
    requires i < |r|
    ensures StoredAll(r)[i] == (r[i].0, Stored(r[i].1))
  {
    if i > 0 { StoredAllAt(r[1..], i - 1); }
  }

  lemma {:induction false} GetStoredAll(r: Record, k: string)
    ensures HasKey(StoredAll(r), k) == HasKey(r, k)
    ensures Get(StoredAll(r), k) == if HasKey(r, k) then Stored(Get(r, k)) else Undefined
    ensures UniqueKeys(r) ==> UniqueKeys(StoredAll(r))
  {
    if r != [] {
      GetStoredAll(r[1..], k);
      GetStoredAll(r[1..], r[0].0);
      assert StoredAll(r)[1..] == StoredAll(r[1..]);
    }
  }

  /** Kept columns then `updated_at`, zipped with the kept values as stored and `now`. */
  lemma ZipStored(cols: seq<string>, vals: seq<Value>, kept: Record, now: string)
    requires |cols| == |vals| == |kept| + 1
    requires forall i :: 0 <= i < |kept| ==> cols[i] == kept[i].0 && vals[i] == Stored(kept[i].1)
    requires cols[|kept|] == "updated_at" && vals[|kept|] == Str(now)
    ensures Zip(cols, vals) == StoredAll(kept) + [("updated_at", Str(now))]
  {
    var a, e := Zip(cols, vals), StoredAll(kept) + [("updated_at", Str(now))];
    forall i | 0 <= i < |a| ensures a[i] == e[i] {
      if i < |kept| { StoredAllAt(kept, i); }
    }
  }

  /** An UPDATE whose SET list is the kept columns then `updated_at`, one placeholder each,
      binds each kept column to its value as stored and `updated_at` to `now`. */
  lemma AssignedFrom(s: Statement, kept: Record, now: string)
    requires WellFormed(s) && s.command.Update?
    requires AssignedSlots(s.command.assignments) == Params(|kept| + 1)
    requires AssignedColumns(s.command.assignments) == Keys(kept) + ["updated_at"]
    requires |s.params| == |kept| + 2 && s.params[|kept|] == Str(now)
    requires forall i :: 0 <= i < |kept| ==> s.params[i] == kept[i].1
    ensures Assigned(s) == StoredAll(kept) + [("updated_at", Str(now))]
  {
    var n := |kept|;
    var cols, bound := AssignedColumns(s.command.assignments), s.params[..n + 1];
    BindParams(n + 1, bound);
    var vals := Bind(Params(n + 1), bound);
    assert Assigned(s) == Zip(cols, vals);
    forall i | 0 <= i < n ensures cols[i] == kept[i].0 && vals[i] == Stored(kept[i].1) {
      assert cols[i] == Keys(kept)[i];
      assert vals[i] == Stored(bound[i]);
    }
    assert vals[n] == Stored(bound[n]);
    ZipStored(cols, vals, kept, now);
  }

  /** The SET list of a project update, bound: the kept properties as stored, then `updated_at`. */
  lemma ProjectAssigned(id: Value, updates: Record, now: string)
    requires ProjectUpdate(id, updates, now).Some?
    ensures WellFormed(ProjectUpdate(id, updates, now).value)
    ensures Assigned(ProjectUpdate(id, updates, now).value) ==
      StoredAll(EntriesWithoutId(updates)) + [("updated_at", Str(now))]
  {
    var s := ProjectUpdate(id, updates, now).value;
    var kept := EntriesWithoutId(updates);
    ProjectUpdateShape(id, updates, now);
    assert AssignedSlots(s.command.assignments) == Params(|kept| + 1);
    AssignedFrom(s, kept, now);
  }

  /** What column k of a project row holds after `projectsDb.update(id, updates)`. */
  function AfterProjectUpdate(row: Record, id: Value, updates: Record, now: string, k: string): Value {
    if !SqlEquals(Get(row, "id"), Stored(id)) then Get(row, k)
    else if k == "updated_at" then Str(now)
    else if k != "id" && HasKey(updates, k) then Stored(Get(updates, k))
    else Get(row, k)
  }

  /** A project update changes only the row whose id matches: `updated_at` becomes `now`, each
      updated property other than `id` takes its new value, and all else stays. */
  lemma ProjectUpdateEffect(rows: seq<Record>, id: Value, updates: Record, now: string)
    requires UniqueKeys(updates) && ProjectUpdate(id, updates, now).Some?
    requires Run(rows, ProjectChecks, ProjectUpdate(id, updates, now).value).Ok?
    ensures var after := Run(rows, ProjectChecks, ProjectUpdate(id, updates, now).value).value;
      && |after| == |rows|
      && forall j, k :: 0 <= j < |rows| ==> Get(after[j], k) == AfterProjectUpdate(rows[j], id, updates, now, k)
  {
    var s := ProjectUpdate(id, updates, now).value;
    forall j, k | 0 <= j < |rows|
      ensures Get(Run(rows, ProjectChecks, s).value[j], k) == AfterProjectUpdate(rows[j], id, updates, now, k)
    {
      ProjectUpdateAt(rows, id, updates, now, j, k);
    }
    RunUpdateLength(rows, ProjectChecks, s);
  }

  lemma ProjectUpdateAt(rows: seq<Record>, id: Value, updates: Record, now: string, j: int, k: string)
    requires UniqueKeys(updates) && ProjectUpdate(id, updates, now).Some?
    requires Run(rows, ProjectChecks, ProjectUpdate(id, updates, now).value).Ok? && 0 <= j < |rows|
    ensures |Run(rows, ProjectChecks, ProjectUpdate(id, updates, now).value).value| == |rows|
    ensures Get(Run(rows, ProjectChecks, ProjectUpdate(id, updates, now).value).value[j], k) ==
      AfterProjectUpdate(rows[j], id, updates, now, k)
  {
    var s := ProjectUpdate(id, updates, now).value;
    var kept := EntriesWithoutId(updates);
    ProjectAssigned(id, updates, now);
    assert WhereValue(s) == id;
    EntriesWithoutIdSpec(updates, "id");
    RunUpdateAt(rows, ProjectChecks, s, j, k);
    EntriesWithoutIdSpec(updates, k);
    AssignedLast(kept, now, k);
  }

  lemma AssignedLast(kept: Record, now: string, k: string)
    requires UniqueKeys(kept) && forall i :: 0 <= i < |kept| ==> kept[i].0 != "id"
    ensures var a := StoredAll(kept) + [("updated_at", Str(now))];
      && HasKey(a, k) == (k == "updated_at" || HasKey(kept, k))
      && (HasKey(a, k) ==> GetLast(a, k) == if k == "updated_at" then Str(now) else Stored(Get(kept, k)))
      && (k == "id" ==> !HasKey(kept, k))
  {
    var tail: Record := [("updated_at", Str(now))];
    GetLastAppend(StoredAll(kept), tail, k);
    GetAppend(StoredAll(kept), tail, k);
    GetStoredAll(kept, k);
    GetLastUnique(StoredAll(kept), k);
    assert tail[1..] == [];
    HasKeyIff(kept, k);
  }

  // ---------------------------------------------------------------------------
  // donationsDb.create

  const DonationFields: seq<string> :=
    ["name", "email", "amount", "message", "project_id", "project_name", "transfer_confirmation", "status"]
  const DonationLate: seq<string> := ["verified_at", "payment_reference"]
  const DonationColumns: seq<string> := ["id"] + DonationFields + ["created_at"] + DonationLate

  function DonationInsert(id: string, donation: Record, now: string): (s: Statement)
    ensures WellFormed(s) && s.command.Insert?
  {
    InsertedParams("donations", DonationColumns,
                   [Str(id)] + Fields(donation, DonationFields) + [Str(now)] + Fields(donation, DonationLate));
    Statement(Insert("donations", DonationColumns, Params(|DonationColumns|)),
              [Str(id)] + Fields(donation, DonationFields) + [Str(now)] + Fields(donation, DonationLate))
  }

  lemma DonationColumnsPlain()
    ensures forall i :: 0 <= i < |DonationColumns| ==> '?' !in DonationColumns[i]
  {
  }

  /** No column name holds a `?`, so the text has one `?` per parameter. */
  lemma DonationInsertText(id: string, donation: Record, now: string)
    ensures Count(Text(DonationInsert(id, donation, now).command), '?') == |DonationInsert(id, donation, now).params|
  {
    DonationColumnsPlain();
    InsertTextCount("donations", DonationColumns, Params(|DonationColumns|));
  }

  /** `{ id, ...donation, created_at: now }` */
  function CreatedDonation(id: string, donation: Record, now: string): Record {
    Created(id, donation, [("created_at", Str(now))])
  }

  lemma DonationFieldsPlain(now: string)
    ensures forall i :: 0 <= i < |DonationFields| ==>
      DonationFields[i] != "id" && !HasKey([("created_at", Str(now))], DonationFields[i])
    ensures forall i :: 0 <= i < |DonationLate| ==>
      DonationLate[i] != "id" && !HasKey([("created_at", Str(now))], DonationLate[i])
  {
  }

  /** The created donation carries the fresh id and `created_at` = `now`, and otherwise exactly
      the input's properties. */
  lemma CreatedDonationShape(id: string, donation: Record, now: string, k: string)
    requires !HasKey(donation, "id")
    ensures var created := CreatedDonation(id, donation, now);
      && Get(created, "id") == Str(id) && Get(created, "created_at") == Str(now)
      && (k != "id" && k != "created_at" ==>
            Get(created, k) == Get(donation, k) && HasKey(created, k) == HasKey(donation, k))
  {
    var stamps: Record := [("created_at", Str(now))];
    assert stamps[1..] == [];
    GetCreated(id, donation, stamps, "id");
    GetCreated(id, donation, stamps, "created_at");
    GetCreated(id, donation, stamps, k);
  }

  /** One placeholder per column, and the row stored holds, column by column, what the
      returned object holds. */
  lemma DonationCreateRoundTrip(id: string, donation: Record, now: string)
    requires !HasKey(donation, "id")
    ensures var s := DonationInsert(id, donation, now);
      && WellFormed(s)
      && |InsertedRow(s)| == |DonationColumns|
      && forall i :: 0 <= i < |DonationColumns| ==>
           InsertedRow(s)[i] == (DonationColumns[i], Stored(Get(CreatedDonation(id, donation, now), DonationColumns[i])))
  {
    var created := CreatedDonation(id, donation, now);
    var stamps: Record := [("created_at", Str(now))];
    var s := DonationInsert(id, donation, now);
    CreatedDonationShape(id, donation, now, "id");
    DonationFieldsPlain(now);
    CreatedFields(id, donation, stamps, DonationFields);
    CreatedFields(id, donation, stamps, DonationLate);
    FieldsAppend(created, ["id"] + DonationFields + ["created_at"], DonationLate);
    FieldsAppend(created, ["id"] + DonationFields, ["created_at"]);
    FieldsAppend(created, ["id"], DonationFields);
    assert Fields(created, ["id"]) == [Str(id)];
    assert Fields(created, ["created_at"]) == [Str(now)];
    assert s.params == Fields(created, DonationColumns);
    InsertedParams("donations", DonationColumns, s.params);
  }

  // ---------------------------------------------------------------------------
  // contactMessagesDb.create and the `responded` mapping

  const MessageFields: seq<string> := ["name", "email", "subject", "message"]
  const MessageFront: seq<string> := ["id"] + MessageFields + ["created_at"]
  const MessageColumns: seq<string> := MessageFront + ["responded"]

  /** The last value is the literal `0` of the statement text, not a placeholder. */
  function MessageInsert(id: string, message: Record, now: string): (s: Statement)
    ensures WellFormed(s) && s.command.Insert?
  {
    BindLiteralLast(|MessageFront|, [Str(id)] + Fields(message, MessageFields) + [Str(now)], 0);
    Statement(Insert("contact_messages", MessageColumns, Params(|MessageFront|) + [Literal(0)]),
              [Str(id)] + Fields(message, MessageFields) + [Str(now)])
  }

  lemma MessageColumnsPlain()
    ensures forall i :: 0 <= i < |MessageColumns| ==> '?' !in MessageColumns[i]
  {
  }

  /** The text has one `?` per parameter, the literal `0` taking none. */
  lemma MessageInsertText(id: string, message: Record, now: string)
    ensures Count(Text(MessageInsert(id, message, now).command), '?') == |MessageInsert(id, message, now).params|
  {
    MessageColumnsPlain();
    InsertTextCount("contact_messages", MessageColumns, Params(|MessageFront|) + [Literal(0)]);
  }

  /** `{ id, ...message, created_at: now, responded: false }` */
  function CreatedMessage(id: string, message: Record, now: string): Record {
    Created(id, message, [("created_at", Str(now)), ("responded", Bool(false))])
  }

  /** `{ ...row, responded: Boolean(row.responded) }` */
  function ReadMessage(row: Record): Record {
    Overlay(row, [("responded", Bool(Truthy(Get(row, "responded"))))])
  }

  /** Reading keeps every column but `responded`, which becomes a boolean: 0 reads as false and
      1 as true, and under the schema's CHECK those are the only values a set column holds. */
  lemma ReadMessageMeaning(row: Record, k: string)
    ensures k != "responded" ==> Get(ReadMessage(row), k) == Get(row, k)
    ensures Get(row, "responded") == Num(0.0) ==> Get(ReadMessage(row), "responded") == Bool(false)
    ensures Get(row, "responded") == Num(1.0) ==> Get(ReadMessage(row), "responded") == Bool(true)
    ensures Admits(MessageChecks, row) && Get(row, "responded") != Null && Get(row, "responded") != Undefined ==>
      Get(ReadMessage(row), "responded") == Bool(Get(row, "responded") == Num(1.0))
  {
    var tail: Record := [("responded", Bool(Truthy(Get(row, "responded"))))];
    assert tail[1..] == [];
    GetOverlay(row, tail, k);
    GetOverlay(row, tail, "responded");
    MessageChecksMeaning(row);
  }

  lemma MessageFieldsPlain(now: string)
    ensures forall i :: 0 <= i < |MessageFields| ==>
      MessageFields[i] != "id" && !HasKey([("created_at", Str(now)), ("responded", Bool(false))], MessageFields[i])
  {
    var stamps: Record := [("created_at", Str(now)), ("responded", Bool(false))];
    var tail: Record := [("responded", Bool(false))];
    assert stamps[1..] == tail && tail[1..] == [];
  }

  /** The stored row always has `responded = 0`, whatever the input; the returned object says
      `responded: false`, and that is what reading the row back gives. */
  lemma MessageResponded(id: string, message: Record, now: string)
    requires !HasKey(message, "id")
    ensures var row := InsertedRow(MessageInsert(id, message, now));
      && |row| == |MessageColumns| && Get(row, "responded") == Num(0.0)
      && Get(CreatedMessage(id, message, now), "responded") == Bool(false)
      && Get(ReadMessage(row), "responded") == Bool(false)
  {
    var stamps: Record := [("created_at", Str(now)), ("responded", Bool(false))];
    var tail: Record := [("responded", Bool(false))];
    assert stamps[1..] == tail && tail[1..] == [];
    GetCreated(id, message, stamps, "responded");
    MessageCreateRoundTrip(id, message, now);
    var row := InsertedRow(MessageInsert(id, message, now));
    MessageFrontKeys();
    forall j | 0 <= j < 6 ensures row[j].0 != "responded" {
      assert row[j].0 == MessageFront[j];
    }
    RespondedLast(row);
  }

  lemma MessageFrontKeys()
    ensures |MessageFront| == 6 && forall j :: 0 <= j < 6 ==> MessageFront[j] != "responded"
  {
  }

  lemma RespondedLast(row: Record)
    requires |row| == 7 && row[6] == ("responded", Num(0.0))
    requires forall j :: 0 <= j < 6 ==> row[j].0 != "responded"
    ensures Get(row, "responded") == Num(0.0) && Get(ReadMessage(row), "responded") == Bool(false)
  {
    GetFirstAt(row, "responded", 6);
    ReadMessageMeaning(row, "responded");
  }

  /** One placeholder per parameter, and the stored row holds, column by column, what the
      returned object holds, except for the literal `responded`. */
  lemma MessageCreateRoundTrip(id: string, message: Record, now: string)
    requires !HasKey(message, "id")
    ensures var s := MessageInsert(id, message, now);
      var created := CreatedMessage(id, message, now);
      && WellFormed(s)
      && |InsertedRow(s)| == |MessageColumns|
      && (forall i :: 0 <= i < 6 ==> InsertedRow(s)[i] == (MessageColumns[i], Stored(Get(created, MessageColumns[i]))))
      && InsertedRow(s)[6] == ("responded", Num(0.0))
  {
    var created := CreatedMessage(id, message, now);
    var stamps: Record := [("created_at", Str(now)), ("responded", Bool(false))];
    var tail: Record := [("responded", Bool(false))];
    assert stamps[1..] == tail && tail[1..] == [];
    var s := MessageInsert(id, message, now);
    GetCreated(id, message, stamps, "id");
    GetCreated(id, message, stamps, "created_at");
    MessageFieldsPlain(now);
    CreatedFields(id, message, stamps, MessageFields);
    FieldsAppend(created, ["id"], MessageFields);
    FieldsAppend(created, ["id"] + MessageFields, ["created_at"]);
    assert Fields(created, ["id"]) == [Str(id)];
    assert Fields(created, ["created_at"]) == [Str(now)];
    assert s.params == Fields(created, MessageFront);
    InsertedLiteral("contact_messages", MessageFront, "responded", s.params, 0);
  }

  // ---------------------------------------------------------------------------
  // donationsDb.updateStatus

  /** `UPDATE donations SET status = ?, verified_at = ? WHERE id = ?` with
      `[status, verifiedAt || null, id]`. */
  function StatusUpdate(id: Value, status: Value, verifiedAt: Value): (s: Statement)
    ensures WellFormed(s) && s.command.Update?
  {
    Statement(Update("donations", [("status", Param), ("verified_at", Param)], "id"), [status, Or(verifiedAt, Null), id])
  }

  /** The SET list bound: the status, and the verification time or NULL when none is given. */
  lemma StatusAssigned(id: Value, status: Value, verifiedAt: Value)
    ensures Assigned(StatusUpdate(id, status, verifiedAt)) ==
      [("status", Stored(status)), ("verified_at", Stored(Or(verifiedAt, Null)))]
    ensures !Truthy(verifiedAt) ==> Stored(Or(verifiedAt, Null)) == Null
    ensures WhereValue(StatusUpdate(id, status, verifiedAt)) == id
  {
    var s := StatusUpdate(id, status, verifiedAt);
    var asg := s.command.assignments;
    var bound := [status, Or(verifiedAt, Null)];
    assert s.params[..|s.params| - 1] == bound;
    assert AssignedSlots(asg) == Params(2);
    assert AssignedColumns(asg) == ["status", "verified_at"];
    BindParams(2, bound);
    var a := Assigned(s);
    assert |a| == 2 && a[0] == ("status", Stored(status)) && a[1] == ("verified_at", Stored(Or(verifiedAt, Null)));
  }

  /** What column k of a donation row holds after `updateStatus(id, status, verifiedAt)`. */
  function AfterStatusUpdate(row: Record, id: Value, status: Value, verifiedAt: Value, k: string): Value {
    if !SqlEquals(Get(row, "id"), Stored(id)) then Get(row, k)
    else if k == "status" then Stored(status)
    else if k == "verified_at" then Stored(Or(verifiedAt, Null))
    else Get(row, k)
  }

  lemma GetStatusAssigned(status: Value, at: Value, k: string)
    ensures var a: Record := [("status", status), ("verified_at", at)];
      && HasKey(a, k) == (k == "status" || k == "verified_at")
      && (k == "status" ==> GetLast(a, k) == status)
      && (k == "verified_at" ==> GetLast(a, k) == at)
  {
    var a: Record := [("status", status), ("verified_at", at)];
    var tail: Record := [("verified_at", at)];
    assert a[1..] == tail && tail[1..] == [];
    assert HasKey(tail, k) == (k == "verified_at");
  }

  /** A status update changes only the row with that id: its status, and its `verified_at`,
      which becomes NULL when no time is given. */
  lemma StatusUpdateAt(rows: seq<Record>, id: Value, status: Value, verifiedAt: Value, j: int, k: string)
    requires Run(rows, DonationChecks, StatusUpdate(id, status, verifiedAt)).Ok? && 0 <= j < |rows|
    ensures var after := Run(rows, DonationChecks, StatusUpdate(id, status, verifiedAt)).value;
      |after| == |rows| && Get(after[j], k) == AfterStatusUpdate(rows[j], id, status, verifiedAt, k)
  {
    var s := StatusUpdate(id, status, verifiedAt);
    StatusAssigned(id, status, verifiedAt);
    GetStatusAssigned(Stored(status), Stored(Or(verifiedAt, Null)), k);
    RunUpdateAt(rows, DonationChecks, s, j, k);
  }

  lemma StatusUpdateEffect(rows: seq<Record>, id: Value, status: Value, verifiedAt: Value)
    requires Run(rows, DonationChecks, StatusUpdate(id, status, verifiedAt)).Ok?
    ensures var after := Run(rows, DonationChecks, StatusUpdate(id, status, verifiedAt)).value;
      && |after| == |rows|
      && forall j, k :: 0 <= j < |rows| ==> Get(after[j], k) == AfterStatusUpdate(rows[j], id, status, verifiedAt, k)
  {
    var s := StatusUpdate(id, status, verifiedAt);
    RunUpdateLength(rows, DonationChecks, s);
    forall j, k | 0 <= j < |rows|
      ensures Get(Run(rows, DonationChecks, s).value[j], k) == AfterStatusUpdate(rows[j], id, status, verifiedAt, k)
    {
      StatusUpdateAt(rows, id, status, verifiedAt, j, k);
    }
  }

  /** The schema decides which statuses get through: on a consistent table the update succeeds
      exactly when every value is bound and, if some row has the id, the status is a status
      name. */
  lemma StatusUpdateAccepted(rows: seq<Record>, id: Value, status: Value, verifiedAt: Value)
    requires Consistent(rows, DonationChecks)
    ensures Run(rows, DonationChecks, StatusUpdate(id, status, verifiedAt)).Ok? <==>
      && id != Undefined && status != Undefined
      && ((exists j :: 0 <= j < |rows| && SqlEquals(Get(rows[j], "id"), Stored(id))) ==>
            ParseDonationStatus(status).Some?)
  {
    StatusAssigned(id, status, verifiedAt);
    if id != Undefined && status != Undefined {
      if ParseDonationStatus(status).Some? {
        StatusUpdateAdmitted(rows, id, status, verifiedAt);
      } else if exists j :: 0 <= j < |rows| && SqlEquals(Get(rows[j], "id"), Stored(id)) {
        var j :| 0 <= j < |rows| && SqlEquals(Get(rows[j], "id"), Stored(id));
        StatusUpdateRefused(rows, id, status, verifiedAt, j);
      } else {
        StatusUpdateAdmitted(rows, id, status, verifiedAt);
      }
    }
  }

  lemma StatusUpdatedRow(rows: seq<Record>, id: Value, status: Value, verifiedAt: Value, j: int)
    requires 0 <= j < |rows|
    ensures var s := StatusUpdate(id, status, verifiedAt);
      && (Selected(rows[j], s) <==> SqlEquals(Get(rows[j], "id"), Stored(id)))
      && (Selected(rows[j], s) ==> Get(Updated(rows, s)[j], "status") == Stored(status))
      && (!Selected(rows[j], s) ==> Updated(rows, s)[j] == rows[j])
  {
    var s := StatusUpdate(id, status, verifiedAt);
    StatusAssigned(id, status, verifiedAt);
    UpdatedAt(rows, s, j, "status");
    GetStatusAssigned(Stored(status), Stored(Or(verifiedAt, Null)), "status");
  }

  /** The donation constraints on the columns a status update assigns: a status name passes
      those on `status`, and none is on `verified_at`. */
  lemma DonationChecksOnStatus(v: Value)
    requires ParseDonationStatus(v).Some?
    ensures forall i :: 0 <= i < |DonationChecks| ==> DonationChecks[i].column != "verified_at"
    ensures forall i :: 0 <= i < |DonationChecks| && DonationChecks[i].column == "status" ==> Holds(DonationChecks[i], v)
  {
    forall i | 0 <= i < |DonationChecks| ensures DonationChecks[i].column != "verified_at" {
      if i < |DonationRequired| { assert DonationChecks[i] == NotNull(DonationRequired[i]); }
    }
  }

  /** A bound update whose status is a status name, or that selects no row, succeeds. */
  lemma StatusUpdateAdmitted(rows: seq<Record>, id: Value, status: Value, verifiedAt: Value)
    requires Consistent(rows, DonationChecks) && id != Undefined && status != Undefined
    requires ParseDonationStatus(status).Some? ||
      forall j :: 0 <= j < |rows| ==> !SqlEquals(Get(rows[j], "id"), Stored(id))
    ensures Run(rows, DonationChecks, StatusUpdate(id, status, verifiedAt)).Ok?
  {
    var s := StatusUpdate(id, status, verifiedAt);
    var a := Assigned(s);
    StatusAssigned(id, status, verifiedAt);
    GetStatusAssigned(Stored(status), Stored(Or(verifiedAt, Null)), PrimaryKey);
    forall j | 0 <= j < |rows| && Selected(rows[j], s) ensures Admits(DonationChecks, Updated(rows, s)[j]) {
      StatusUpdatedRow(rows, id, status, verifiedAt, j);
      DonationChecksOnStatus(status);
      forall i | 0 <= i < |DonationChecks| && HasKey(a, DonationChecks[i].column)
        ensures Holds(DonationChecks[i], GetLast(a, DonationChecks[i].column))
      {
        GetStatusAssigned(Stored(status), Stored(Or(verifiedAt, Null)), DonationChecks[i].column);
      }
      AdmitsUpdated(rows, DonationChecks, s, j);
    }
    UpdateAccepted(rows, DonationChecks, s);
  }

  /** A value that is not a status name is refused once a row has the id. */
  lemma StatusUpdateRefused(rows: seq<Record>, id: Value, status: Value, verifiedAt: Value, j: int)
    requires 0 <= j < |rows| && SqlEquals(Get(rows[j], "id"), Stored(id))
    requires ParseDonationStatus(status).None?
    ensures Run(rows, DonationChecks, StatusUpdate(id, status, verifiedAt)) ==
      if id == Undefined || status == Undefined then Err(UnboundValue) else Err(CheckFailed)
  {
    var s := StatusUpdate(id, status, verifiedAt);
    StatusAssigned(id, status, verifiedAt);
    StatusUpdatedRow(rows, id, status, verifiedAt, j);
    DonationChecksMeaning(Updated(rows, s)[j]);
  }

  // ---------------------------------------------------------------------------
  // contactMessagesDb.markAsResponded

  /** `UPDATE contact_messages SET responded = 1 WHERE id = ?` with `[id]`. */
  function MarkResponded(id: Value): (s: Statement)
    ensures WellFormed(s) && s.command.Update?
  {
    Statement(Update("contact_messages", [("responded", Literal(1))], "id"), [id])
  }

  /** Marking changes only the message with that id: its `responded` becomes 1, which reads
      back as true. On a consistent table it succeeds exactly when the id is bound. */
  lemma MarkRespondedAt(rows: seq<Record>, id: Value, j: int, k: string)
    requires Run(rows, MessageChecks, MarkResponded(id)).Ok? && 0 <= j < |rows|
    ensures var after := Run(rows, MessageChecks, MarkResponded(id)).value;
      && |after| == |rows|
      && Get(after[j], k) ==
           (if SqlEquals(Get(rows[j], "id"), Stored(id)) && k == "responded" then Num(1.0) else Get(rows[j], k))
      && (SqlEquals(Get(rows[j], "id"), Stored(id)) ==> Get(ReadMessage(after[j]), "responded") == Bool(true))
  {
    var s := MarkResponded(id);
    MarkAssigned(id);
    RunUpdateAt(rows, MessageChecks, s, j, k);
    RunUpdateAt(rows, MessageChecks, s, j, "responded");
    ReadMessageMeaning(Run(rows, MessageChecks, s).value[j], "responded");
  }

  lemma MarkAssigned(id: Value)
    ensures Assigned(MarkResponded(id)) == [("responded", Num(1.0))]
    ensures WhereValue(MarkResponded(id)) == id
  {
    var s := MarkResponded(id);
    assert AssignedSlots(s.command.assignments) == [Literal(1)];
    assert AssignedColumns(s.command.assignments) == ["responded"];
    assert s.params[..|s.params| - 1] == [];
  }

  lemma MarkRespondedAccepted(rows: seq<Record>, id: Value)
    requires Consistent(rows, MessageChecks)
    ensures Run(rows, MessageChecks, MarkResponded(id)).Ok? <==> id != Undefined
  {
    var s := MarkResponded(id);
    MarkAssigned(id);
    if id != Undefined {
      var a: Record := [("responded", Num(1.0))];
      assert a[1..] == [];
      forall j | 0 <= j < |rows| && Selected(rows[j], s) ensures Admits(MessageChecks, Updated(rows, s)[j]) {
        forall i | 0 <= i < |MessageChecks| && HasKey(a, MessageChecks[i].column)
          ensures Holds(MessageChecks[i], GetLast(a, MessageChecks[i].column))
        {
          if i < |MessageRequired| { assert MessageChecks[i] == NotNull(MessageRequired[i]); }
        }
        AdmitsUpdated(rows, MessageChecks, s, j);
      }
      UpdateAccepted(rows, MessageChecks, s);
    }
  }

  // ---------------------------------------------------------------------------
  // Reads: getAll, getById and the donation listing joined with project titles

  /** `SELECT * FROM t ORDER BY created_at DESC`: every row once, newest first. */
  function NewestFirst(rows: seq<Record>): (r: seq<Record>)
    ensures multiset(r) == multiset(rows)
    ensures SortedOn(r, "created_at", false)
  {
    SortByCorrect(rows, "created_at", false);
    SortBy(rows, "created_at", false)
  }

  /** `SELECT * FROM t WHERE id = ?` and then `results[0]`, or undefined when nothing matched. */
  function ById(rows: seq<Record>, id: Value): (r: Result<Option<Record>, SqlError>)
    ensures r.Err? <==> id == Undefined
    ensures r.Err? ==> r.error == UnboundValue
    ensures r == Ok(None) <==> id != Undefined && forall j :: 0 <= j < |rows| ==> !SqlEquals(Get(rows[j], "id"), Stored(id))
    ensures r.Ok? && r.value.Some? ==> r.value.value in rows && SqlEquals(Get(r.value.value, "id"), Stored(id))
  {
    if id == Undefined then Err(UnboundValue)
    else
      var m := Where(rows, PrimaryKey, id);
      if m == [] then Ok(None)
      else
        assert m[0] in m;
        Ok(Some(m[0]))
  }

  /** Under the primary key the row found is the one row with that id. */
  lemma ByIdFound(rows: seq<Record>, id: Value, j: int)
    requires DistinctKeys(rows) && 0 <= j < |rows| && SqlEquals(Get(rows[j], "id"), Stored(id))
    ensures ById(rows, id) == Ok(Some(rows[j]))
  {
    var m := Where(rows, PrimaryKey, id);
    WhereKeyUnique(rows, id);
    assert rows[j] in m;
  }

  /** `contactMessagesDb.getAll`: the rows newest first, each with `responded` as a boolean. */
  function MessagesNewestFirst(rows: seq<Record>): (r: seq<Record>)
    ensures |r| == |rows|
  {
    var sorted := NewestFirst(rows);
    assert |sorted| == |multiset(sorted)| == |rows|;
    seq(|sorted|, i requires 0 <= i < |sorted| => ReadMessage(sorted[i]))
  }

  /** Listing messages keeps the rows' order and columns; only `responded` becomes a boolean. */
  lemma MessagesNewestFirstMeaning(rows: seq<Record>, i: int, k: string)
    requires 0 <= i < |rows|
    ensures var sorted := NewestFirst(rows);
      && |sorted| == |rows|
      && Get(MessagesNewestFirst(rows)[i], "responded") == Bool(Truthy(Get(sorted[i], "responded")))
      && (k != "responded" ==> Get(MessagesNewestFirst(rows)[i], k) == Get(sorted[i], k))
  {
    var sorted := NewestFirst(rows);
    assert |sorted| == |multiset(sorted)| == |rows|;
    var tail: Record := [("responded", Bool(Truthy(Get(sorted[i], "responded"))))];
    assert tail[1..] == [];
    GetOverlay(sorted[i], tail, "responded");
    ReadMessageMeaning(sorted[i], k);
  }

  /** `contactMessagesDb.getById`: the row found, read as a message. */
  function MessageById(rows: seq<Record>, id: Value): (r: Result<Option<Record>, SqlError>)
    ensures r.Err? <==> id == Undefined
    ensures r.Ok? && r.value.Some? ==>
      Get(r.value.value, "responded").Bool? && SqlEquals(Get(r.value.value, "id"), Stored(id))
  {
    match ById(rows, id)
    case Err(e) => Err(e)
    case Ok(None) => Ok(None)
    case Ok(Some(row)) =>
      ReadMessageMeaning(row, "id");
      var tail: Record := [("responded", Bool(Truthy(Get(row, "responded"))))];
      assert tail[1..] == [];
      GetOverlay(row, tail, "responded");
      Ok(Some(ReadMessage(row)))
  }

  /** `p.title` through `LEFT JOIN projects p ON d.project_id = p.id`: NULL when no project
      has that id. */
  function ProjectTitle(d: Record, projects: seq<Record>): Value {
    if projects == [] then Null
    else if SqlEquals(Get(d, "project_id"), Get(projects[0], "id")) then Get(projects[0], "title")
    else ProjectTitle(d, projects[1..])
  }

  /** The title is the referenced project's, or NULL when there is none. */
  lemma {:induction false} ProjectTitleMeaning(d: Record, projects: seq<Record>)
    ensures (forall j :: 0 <= j < |projects| ==> !SqlEquals(Get(d, "project_id"), Get(projects[j], "id"))) ==>
      ProjectTitle(d, projects) == Null
    ensures DistinctKeys(projects) ==>
      forall j :: 0 <= j < |projects| && SqlEquals(Get(d, "project_id"), Get(projects[j], "id")) ==>
        ProjectTitle(d, projects) == Get(projects[j], "title")
  {
    if projects != [] {
      var tail := projects[1..];
      ProjectTitleMeaning(d, tail);
      assert forall j :: 1 <= j < |projects| ==> projects[j] == tail[j - 1];
      if DistinctKeys(projects) {
        assert DistinctKeys(tail) by {
          forall i, j | 0 <= i < j < |tail| ensures !Clashes(tail[i], tail[j]) {
            assert tail[i] == projects[i + 1] && tail[j] == projects[j + 1];
          }
        }
        forall j | 0 <= j < |projects| && SqlEquals(Get(d, "project_id"), Get(projects[j], "id"))
          ensures ProjectTitle(d, projects) == Get(projects[j], "title")
        {
          if j > 0 {
            assert !Clashes(projects[0], projects[j]);
          }
        }
      }
    }
  }

  /** `d.*, p.title as project_title` */
  function WithTitle(d: Record, projects: seq<Record>): Record {
    Overlay(d, [("project_title", ProjectTitle(d, projects))])
  }

  lemma WithTitleMeaning(d: Record, projects: seq<Record>, k: string)
    ensures Get(WithTitle(d, projects), "project_title") == ProjectTitle(d, projects)
    ensures k != "project_title" ==> Get(WithTitle(d, projects), k) == Get(d, k)
  {
    var tail: Record := [("project_title", ProjectTitle(d, projects))];
    assert tail[1..] == [];
    GetOverlay(d, tail, k);
    GetOverlay(d, tail, "project_title");
  }

  /** `donationsDb.getAll`: each donation once with its project's title, newest first. */
  function DonationsWithTitles(donations: seq<Record>, projects: seq<Record>): (r: seq<Record>)
    ensures multiset(r) == multiset(seq(|donations|, i requires 0 <= i < |donations| => WithTitle(donations[i], projects)))
    ensures SortedOn(r, "created_at", false)
  {
    NewestFirst(seq(|donations|, i requires 0 <= i < |donations| => WithTitle(donations[i], projects)))
  }

  // ---------------------------------------------------------------------------
  // getStats

  datatype Stats = Stats(
    totalProjects: Value, activeProjects: Value, totalDonations: Value, totalRaised: Value, totalMessages: Value)

  /** What `SUM` adds for one value: a number as itself, text that is not a number as 0. */
  function Addend(v: Value): real {
    if v.Num? then v.n else 0.0
  }

  /** `SELECT SUM(amount)`: NULL when no row has a non-NULL amount. */
  function SumAmounts(rows: seq<Record>): Value {
    if rows == [] then Null
    else
      var a := Get(rows[0], "amount");
      var rest := SumAmounts(rows[1..]);
      if a == Null || a == Undefined then rest
      else Num(Addend(a) + if rest.Num? then rest.n else 0.0)
  }

  /** The plain sum of the amounts, counting a missing one as 0. */
  function Total(rows: seq<Record>): real {
    if rows == [] then 0.0 else Addend(Get(rows[0], "amount")) + Total(rows[1..])
  }

  /** `total || 0` turns the SQL sum into the plain sum: NULL for no rows becomes 0. */
  lemma {:induction false} SumOrZero(rows: seq<Record>)
    ensures SumAmounts(rows) == Null || SumAmounts(rows).Num?
    ensures Or(SumAmounts(rows), Num(0.0)) == Num(Total(rows))
  {
    if rows != [] {
      SumOrZero(rows[1..]);
    }
  }

  lemma {:induction false} SumAmountsNull(rows: seq<Record>)
    ensures SumAmounts(rows) == Null <==> forall j :: 0 <= j < |rows| ==> Get(rows[j], "amount") in {Null, Undefined}
  {
    if rows != [] {
      SumAmountsNull(rows[1..]);
      assert forall j :: 1 <= j < |rows| ==> rows[j] == rows[1..][j - 1];
    }
  }

  /** `count || 0` */
  function CountOf(rows: seq<Record>): Value {
    Or(Num(|rows| as real), Num(0.0))
  }

  function GetStats(projects: seq<Record>, donations: seq<Record>, messages: seq<Record>): Stats {
    var verified := Where(donations, "status", Str("verified"));
    Stats(CountOf(projects), CountOf(Where(projects, "status", Str("active"))), CountOf(verified),
          Or(SumAmounts(verified), Num(0.0)), CountOf(messages))
  }

  /** Every figure is a number, never NULL: the counts of the rows, of the active projects and
      of the verified donations, and the plain sum of the verified amounts. */
  lemma StatsMeaning(projects: seq<Record>, donations: seq<Record>, messages: seq<Record>)
    ensures var st := GetStats(projects, donations, messages);
      var verified := Where(donations, "status", Str("verified"));
      && st.totalProjects == Num(|projects| as real)
      && st.activeProjects == Num(|Where(projects, "status", Str("active"))| as real)
      && st.totalDonations == Num(|verified| as real)
      && st.totalRaised == Num(Total(verified))
      && st.totalMessages == Num(|messages| as real)
  {
    SumOrZero(Where(donations, "status", Str("verified")));
  }

  /** On empty tables every figure is 0. */
  lemma StatsEmpty()
    ensures GetStats([], [], []) == Stats(Num(0.0), Num(0.0), Num(0.0), Num(0.0), Num(0.0))
  {
    StatsMeaning([], [], []);
  }

  // ---------------------------------------------------------------------------
  // The database behind the module-level `db` handle

  /** `executeCommand(sql, params)`: runs one statement, and rejects with the engine's error,
      leaving the table as it was, when the statement fails. */
  method ExecuteCommand(rows: seq<Record>, checks: seq<Check>, s: Statement) returns (after: seq<Record>, r: Result<(), SqlError>)
    requires WellFormed(s) && Consistent(rows, checks)
    ensures Consistent(after, checks)
    ensures match Run(rows, checks, s)
      case Ok(t) => after == t && r == Ok(())
      case Err(e) => after == rows && r == Err(e)
  {
    match Run(rows, checks, s)
    case Ok(t) =>
      RunConsistent(rows, checks, s);
      after, r := t, Ok(());
    case Err(e) =>
      after, r := rows, Err(e);
  }

  /** The three tables in rowid order, and the `Math.random` state that `generateId` draws
      from. A statement that fails leaves its table as it was and makes the operation reject
      with the engine's error. */
  class Store {
    var projects: seq<Record>
    var donations: seq<Record>
    var messages: seq<Record>
    const rng: Entropy

    /** What the engine keeps true of its tables: primary keys distinct and CHECKs passed. */
    predicate Valid()
      reads this
    {
      && Consistent(projects, ProjectChecks)
      && Consistent(donations, DonationChecks)
      && Consistent(messages, MessageChecks)
    }

    constructor (rng: Entropy, projects: seq<Record>, donations: seq<Record>, messages: seq<Record>)
      requires Consistent(projects, ProjectChecks) && Consistent(donations, DonationChecks)
      requires Consistent(messages, MessageChecks)
      ensures Valid() && this.rng == rng
      ensures this.projects == projects && this.donations == donations && this.messages == messages
    {
      this.rng := rng;
      this.projects := projects;
      this.donations := donations;
      this.messages := messages;
    }

    /** `projectsDb.create(project)` at time `now`. */
    method CreateProject(project: Record, now: string) returns (r: Result<Record, SqlError>)
      requires Valid()
      modifies this, rng
      ensures Valid() && rng.drawn == old(rng.drawn) + 31
      ensures var id := rng.IdAt(old(rng.drawn));
        match Run(old(projects), ProjectChecks, ProjectInsert(id, project, now))
        case Ok(t) => projects == t && r == Ok(CreatedProject(id, project, now))
        case Err(e) => projects == old(projects) && r == Err(e)
      ensures donations == old(donations) && messages == old(messages)
    {
      var id := rng.NextId();
      var s := ProjectInsert(id, project, now);
      var done;
      projects, done := ExecuteCommand(projects, ProjectChecks, s);
      r := if done.Ok? then Ok(CreatedProject(id, project, now)) else Err(done.error);
    }

    /** `projectsDb.update(id, updates)` at time `now`; no statement when only `id` is given. */
    method UpdateProject(id: Value, updates: Record, now: string) returns (r: Result<(), SqlError>)
      requires Valid()
      modifies this
      ensures Valid()
      ensures match ProjectUpdate(id, updates, now)
        case None => projects == old(projects) && r == Ok(())
        case Some(s) =>
          match Run(old(projects), ProjectChecks, s)
          case Ok(t) => projects == t && r == Ok(())
          case Err(e) => projects == old(projects) && r == Err(e)
      ensures donations == old(donations) && messages == old(messages)
    {
      match ProjectUpdate(id, updates, now)
      case None =>
        r := Ok(());
      case Some(s) =>
        projects, r := ExecuteCommand(projects, ProjectChecks, s);
    }

    /** `donationsDb.create(donation)` at time `now`. */
    method CreateDonation(donation: Record, now: string) returns (r: Result<Record, SqlError>)
      requires Valid()
      modifies this, rng
      ensures Valid() && rng.drawn == old(rng.drawn) + 31
      ensures var id := rng.IdAt(old(rng.drawn));
        match Run(old(donations), DonationChecks, DonationInsert(id, donation, now))
        case Ok(t) => donations == t && r == Ok(CreatedDonation(id, donation, now))
        case Err(e) => donations == old(donations) && r == Err(e)
      ensures projects == old(projects) && messages == old(messages)
    {
      var id := rng.NextId();
      var s := DonationInsert(id, donation, now);
      var done;
      donations, done := ExecuteCommand(donations, DonationChecks, s);
      r := if done.Ok? then Ok(CreatedDonation(id, donation, now)) else Err(done.error);
    }

    /** `donationsDb.updateStatus(id, status, verifiedAt)` */
    method UpdateDonationStatus(id: Value, status: Value, verifiedAt: Value) returns (r: Result<(), SqlError>)
      requires Valid()
      modifies this
      ensures Valid()
      ensures match Run(old(donations), DonationChecks, StatusUpdate(id, status, verifiedAt))
        case Ok(t) => donations == t && r == Ok(())
        case Err(e) => donations == old(donations) && r == Err(e)
      ensures projects == old(projects) && messages == old(messages)
    {
      var s := StatusUpdate(id, status, verifiedAt);
      donations, r := ExecuteCommand(donations, DonationChecks, s);
    }

    /** `contactMessagesDb.create(message)` at time `now`. */
    method CreateMessage(message: Record, now: string) returns (r: Result<Record, SqlError>)
      requires Valid()
      modifies this, rng
      ensures Valid() && rng.drawn == old(rng.drawn) + 31
      ensures var id := rng.IdAt(old(rng.drawn));
        match Run(old(messages), MessageChecks, MessageInsert(id, message, now))
        case Ok(t) => messages == t && r == Ok(CreatedMessage(id, message, now))
        case Err(e) => messages == old(messages) && r == Err(e)
      ensures projects == old(projects) && donations == old(donations)
    {
      var id := rng.NextId();
      var s := MessageInsert(id, message, now);
      var done;
      messages, done := ExecuteCommand(messages, MessageChecks, s);
      r := if done.Ok? then Ok(CreatedMessage(id, message, now)) else Err(done.error);
    }

    /** `contactMessagesDb.markAsResponded(id)` */
    method MarkAsResponded(id: Value) returns (r: Result<(), SqlError>)
      requires Valid()
      modifies this
      ensures Valid()
      ensures match Run(old(messages), MessageChecks, MarkResponded(id))
        case Ok(t) => messages == t && r == Ok(())
        case Err(e) => messages == old(messages) && r == Err(e)
      ensures projects == old(projects) && donations == old(donations)
    {
      var s := MarkResponded(id);
      messages, r := ExecuteCommand(messages, MessageChecks, s);
    }
  }
}
