/** The Supabase-shaped client over the database module: `from(table)` picks one of three
    handlers, reads are computed from the listing each `getAll` returns, and writes go through
    the create and update operations of the store. */
module SqliteClient {
  import opened Values
  import opened Tables
  import opened Sql
  import opened Uuid
  import opened Database

  /** The three handlers `from` can return. */
  datatype Handler = ProjectsApi | DonationsApi | MessagesApi

  /** What the client reports besides the engine's own errors. Calling a method a handler does
      not have is a `TypeError`. */
  datatype ClientError =
    | Engine(error: SqlError)
    | TableNotSupported
    | NotAFunction
    | UpdateOnlyById
    | UpdateOnlyStatusById
    | DeleteNotImplemented
    | RpcNotImplemented

  function TableName(h: Handler): string {
    match h
    case ProjectsApi => "projects"
    case DonationsApi => "donations"
    case MessagesApi => "contact_messages"
  }

  /** `from(tableName)`: the handler for the table, and a thrown error for any other name. */
  function From(name: string): (r: Result<Handler, ClientError>)
    ensures r.Err? ==> r.error == TableNotSupported
  {
    if name == "projects" then Ok(ProjectsApi)
    else if name == "donations" then Ok(DonationsApi)
    else if name == "contact_messages" then Ok(MessagesApi)
    else Err(TableNotSupported)
  }

  /** `from` is the inverse of the table names: it accepts exactly the three names. */
  lemma FromRoundTrip(h: Handler, name: string)
    ensures From(TableName(h)) == Ok(h)
    ensures From(name).Ok? <==> exists g: Handler :: TableName(g) == name
    ensures From(name).Ok? ==> TableName(From(name).value) == name
  {
    if From(name).Ok? {
      assert TableName(From(name).value) == name;
    }
  }

  /** The table behind a handler. */
  function TableOf(h: Handler, projects: seq<Record>, donations: seq<Record>, messages: seq<Record>): seq<Record> {
    match h
    case ProjectsApi => projects
    case DonationsApi => donations
    case MessagesApi => messages
  }

  // ---------------------------------------------------------------------------
  // Reads

  /** What each handler's `getAll` returns: projects and messages newest first (messages with
      `responded` read as a boolean), donations newest first joined with their project's title. */
  function Listing(h: Handler, projects: seq<Record>, donations: seq<Record>, messages: seq<Record>): seq<Record> {
    match h
    case ProjectsApi => NewestFirst(projects)
    case DonationsApi => DonationsWithTitles(donations, projects)
    case MessagesApi => MessagesNewestFirst(messages)
  }

  /** `rows.filter(p => p[column] === value)` */
  function Filter(rows: seq<Record>, column: string, value: Value): (r: seq<Record>)
    ensures |r| <= |rows|
    ensures forall x :: x in r ==> x in rows && Get(x, column) == value
  {
    if rows == [] then []
    else (if Get(rows[0], column) == value then [rows[0]] else []) + Filter(rows[1..], column, value)
  }

  /** `filtered[0] || null` is the first row that `find` would return. */
  lemma {:induction false} FilterHead(rows: seq<Record>, column: string, value: Value)
    ensures Filter(rows, column, value) == [] <==> FindFirst(rows, column, value).None?
    ensures Filter(rows, column, value) != [] ==> FindFirst(rows, column, value) == Some(Filter(rows, column, value)[0])
  {
    if rows != [] {
      FilterHead(rows[1..], column, value);
      if Get(rows[0], column) != value {
        assert forall j :: 1 <= j < |rows| ==> rows[j] == rows[1..][j - 1];
        if FindFirst(rows[1..], column, value).Some? {
          var r := FindFirst(rows[1..], column, value).value;
          var i := FindIndex(rows[1..], column, value);
          assert FindIndex(rows, column, value) == i + 1;
        }
      }
    }
  }

  /** `select().eq(column, value).single()`: `getById` on `id`, otherwise the head of the
      filtered listing, or null. The messages handler has no `eq`. */
  function EqSingle(h: Handler, column: string, value: Value, projects: seq<Record>, donations: seq<Record>, messages: seq<Record>)
    : Result<Option<Record>, ClientError>
  {
    if h == MessagesApi then Err(NotAFunction)
    else if column == "id" then
      match ById(TableOf(h, projects, donations, messages), value)
      case Err(e) => Err(Engine(e))
      case Ok(found) => Ok(found)
    else
      var filtered := Filter(Listing(h, projects, donations, messages), column, value);
      Ok(if filtered == [] then None else Some(filtered[0]))
  }

  /** Off `id`, `single()` finds the first listed row whose column is `===` the value, and null
      when there is none; on `id` it finds the one row with that key. */
  lemma EqSingleMeaning(h: Handler, column: string, value: Value, projects: seq<Record>, donations: seq<Record>, messages: seq<Record>)
    requires h != MessagesApi
    ensures var rows := Listing(h, projects, donations, messages);
      var r := EqSingle(h, column, value, projects, donations, messages);
      column != "id" ==>
        && (r == Ok(None) <==> forall j :: 0 <= j < |rows| ==> Get(rows[j], column) != value)
        && (r.Ok? && r.value.Some? ==> exists j :: FirstMatch(rows, column, value, j) && rows[j] == r.value.value)
        && r.Ok?
  {
    FilterHead(Listing(h, projects, donations, messages), column, value);
  }

  /** On `id` under distinct keys: the row holding that id. */
  lemma EqSingleById(h: Handler, value: Value, projects: seq<Record>, donations: seq<Record>, messages: seq<Record>, j: int)
    requires h != MessagesApi
    requires var rows := TableOf(h, projects, donations, messages);
      DistinctKeys(rows) && 0 <= j < |rows| && SqlEquals(Get(rows[j], "id"), Stored(value))
    ensures EqSingle(h, "id", value, projects, donations, messages) == Ok(Some(TableOf(h, projects, donations, messages)[j]))
  {
    ByIdFound(TableOf(h, projects, donations, messages), value, j);
  }

  /** `select().limit(count)`: the first `count` listed projects; only projects have `limit`. */
  function Limit(h: Handler, count: int, projects: seq<Record>): Result<seq<Record>, ClientError> {
    if h == ProjectsApi then Ok(Slice(NewestFirst(projects), count)) else Err(NotAFunction)
  }

  /** `limit(count).single()`: `projects.slice(0, count)[0] || null` */
  function LimitSingle(h: Handler, count: int, projects: seq<Record>): Result<Option<Record>, ClientError> {
    match Limit(h, count, projects)
    case Err(e) => Err(e)
    case Ok(prefix) => Ok(if prefix == [] then None else Some(prefix[0]))
  }

  /** The limited listing is a prefix of the newest-first listing; `single()` gives its head,
      which is the newest project whenever the prefix is not empty, and null exactly when it is. */
  lemma LimitMeaning(count: int, projects: seq<Record>)
    ensures var rows := NewestFirst(projects);
      && Limit(ProjectsApi, count, projects).Ok?
      && Limit(ProjectsApi, count, projects).value <= rows
      && |Limit(ProjectsApi, count, projects).value| == (if count >= 0 then Min(count, |rows|) else Max(|rows| + count, 0))
      && (LimitSingle(ProjectsApi, count, projects) == Ok(None) <==> Limit(ProjectsApi, count, projects).value == [])
      && (LimitSingle(ProjectsApi, count, projects).Ok? && LimitSingle(ProjectsApi, count, projects).value.Some? ==>
            rows != [] && LimitSingle(ProjectsApi, count, projects).value.value == rows[0])
  {
    var rows := NewestFirst(projects);
    var prefix := Slice(rows, count);
    if prefix != [] {
      assert prefix[0] == rows[0];
    }
  }

  /** `select().order(column, options)`: the listing sorted with the comparator, ascending only
      when `options.ascending` is truthy. */
  function Order(h: Handler, column: string, ascending: bool, projects: seq<Record>, donations: seq<Record>, messages: seq<Record>)
    : seq<Record>
  {
    SortBy(Listing(h, projects, donations, messages), column, ascending)
  }

  /** Ordering returns the listing's rows, each as often as listed, sorted on the column in the
      direction asked for. */
  lemma OrderMeaning(h: Handler, column: string, ascending: bool, projects: seq<Record>, donations: seq<Record>, messages: seq<Record>)
    ensures var r := Order(h, column, ascending, projects, donations, messages);
      && multiset(r) == multiset(Listing(h, projects, donations, messages))
      && SortedOn(r, column, ascending)
  {
    SortByCorrect(Listing(h, projects, donations, messages), column, ascending);
  }

  // ---------------------------------------------------------------------------
  // Writes

  function ChecksOf(h: Handler): seq<Check> {
    match h
    case ProjectsApi => ProjectChecks
    case DonationsApi => DonationChecks
    case MessagesApi => MessageChecks
  }

  /** The INSERT each handler's `create` issues. */
  function InsertOf(h: Handler, id: string, record: Record, now: string): (s: Statement)
    ensures WellFormed(s) && s.command.Insert?
  {
    match h
    case ProjectsApi => ProjectInsert(id, record, now)
    case DonationsApi => DonationInsert(id, record, now)
    case MessagesApi => MessageInsert(id, record, now)
  }

  /** The record each handler's `create` returns. */
  function CreatedOf(h: Handler, id: string, record: Record, now: string): Record {
    match h
    case ProjectsApi => CreatedProject(id, record, now)
    case DonationsApi => CreatedDonation(id, record, now)
    case MessagesApi => CreatedMessage(id, record, now)
  }

  /** The tables, the records returned so far, and the first error, while `Promise.all` runs
      one `create` per item. */
  datatype Batch = Batch(rows: seq<Record>, created: seq<Record>, failure: Option<SqlError>)

  /** One `create` of the batch, with the identifier it draws. */
  function CreateOne(h: Handler, b: Batch, id: string, item: Record, now: string): Batch {
    match Run(b.rows, ChecksOf(h), InsertOf(h, id, item, now))
    case Ok(t) => Batch(t, b.created + [CreatedOf(h, id, item, now)], b.failure)
    case Err(err) => Batch(b.rows, b.created, if b.failure.Some? then b.failure else Some(err))
  }

  /** A create that succeeds appends one row and returns its record; one that fails changes
      nothing but the failure. */
  lemma CreateOneMeaning(h: Handler, b: Batch, id: string, item: Record, now: string)
    ensures var c := CreateOne(h, b, id, item, now);
      && b.rows <= c.rows
      && (c.failure.None? ==>
            && b.failure.None? && |c.rows| == |b.rows| + 1
            && c.created == b.created + [CreatedOf(h, id, item, now)])
      && (b.failure.Some? ==> c.failure == b.failure)
  {
    var s := InsertOf(h, id, item, now);
    if Run(b.rows, ChecksOf(h), s).Ok? {
      assert Undefined !in s.params;
      RunEffect(b.rows, ChecksOf(h), s);
    }
  }

  /** `Promise.all(data.map(item => create(item)))`: every create runs, item i taking
      identifier i; a failed one adds no row and the first failure is reported. */
  function CreateAll(h: Handler, rows: seq<Record>, items: seq<Record>, ids: seq<string>, now: string): Batch
    requires |ids| == |items|
  {
    if items == [] then Batch(rows, [], None)
    else
      var n := |items| - 1;
      CreateOne(h, CreateAll(h, rows, items[..n], ids[..n], now), ids[n], items[n], now)
  }

  /** The identifiers `generateId` returns for n calls after `from` draws. */
  function IdsFrom(e: Entropy, from: nat, n: nat): (ids: seq<string>)
    ensures |ids| == n
  {
    seq(n, i requires 0 <= i < n => e.IdAt(from + 31 * i))
  }

  lemma IdsFromAt(e: Entropy, from: nat, n: nat, i: nat, drawn: nat)
    requires i < n && drawn == from + 31 * i
    ensures IdsFrom(e, from, n)[i] == e.IdAt(drawn)
  {
  }

  /** The records the creates return, item i with id i. */
  function CreatedAll(h: Handler, items: seq<Record>, ids: seq<string>, now: string): (r: seq<Record>)
    requires |ids| == |items|
    ensures |r| == |items|
  {
    seq(|items|, i requires 0 <= i < |items| => CreatedOf(h, ids[i], items[i], now))
  }

  lemma CreatedAllNext(h: Handler, items: seq<Record>, ids: seq<string>, now: string)
    requires |ids| == |items| && items != []
    ensures var n := |items| - 1;
      CreatedAll(h, items, ids, now) == CreatedAll(h, items[..n], ids[..n], now) + [CreatedOf(h, ids[n], items[n], now)]
  {
    var n := |items| - 1;
    var x := CreatedAll(h, items, ids, now);
    var y := CreatedAll(h, items[..n], ids[..n], now) + [CreatedOf(h, ids[n], items[n], now)];
    forall i | 0 <= i < |x| ensures x[i] == y[i] {
      if i < n { assert items[..n][i] == items[i] && ids[..n][i] == ids[i]; }
    }
  }

  /** When every create succeeds the table gains one row per item after the rows it had, and
      the records returned are the created ones, in input order, item i with id i. */
  lemma {:induction false} CreateAllMeaning(h: Handler, rows: seq<Record>, items: seq<Record>, ids: seq<string>, now: string)
    requires |ids| == |items|
    ensures var b := CreateAll(h, rows, items, ids, now);
      && rows <= b.rows
      && (b.failure.None? ==> |b.rows| == |rows| + |items| && b.created == CreatedAll(h, items, ids, now))
  {
    if items != [] {
      var n := |items| - 1;
      CreateAllMeaning(h, rows, items[..n], ids[..n], now);
      var b := CreateAll(h, rows, items[..n], ids[..n], now);
      CreateOneMeaning(h, b, ids[n], items[n], now);
      CreatedAllNext(h, items, ids, now);
    }
  }

  /** The next item of the batch. */
  lemma CreateAllNext(h: Handler, rows: seq<Record>, items: seq<Record>, ids: seq<string>, now: string, i: nat)
    requires |ids| == |items| && i < |items|
    ensures CreateAll(h, rows, items[..i + 1], ids[..i + 1], now) ==
      CreateOne(h, CreateAll(h, rows, items[..i], ids[..i], now), ids[i], items[i], now)
  {
    assert items[..i + 1][..i] == items[..i];
    assert ids[..i + 1][..i] == ids[..i];
  }

  /** The projects table after `projectsDb.update`; no statement when only `id` is given. */
  function ProjectUpdateRun(rows: seq<Record>, id: Value, updates: Record, now: string): Result<seq<Record>, SqlError> {
    match ProjectUpdate(id, updates, now)
    case None => Ok(rows)
    case Some(s) => Run(rows, ProjectChecks, s)
  }

  /** The arguments `donations.update(updates).eq('id', value)` hands to `updateStatus`:
      `updates.status` and `updates.verified_at || undefined`. */
  function DonationStatement(value: Value, updates: Record): (s: Statement)
    ensures WellFormed(s) && s.command.Update?
  {
    StatusUpdate(value, Get(updates, "status"), Or(Get(updates, "verified_at"), Undefined))
  }

  /** A donation update writes the status and `verified_at` of the row with the id and nothing
      else, whatever other properties the updates hold. */
  lemma DonationUpdateOnlyStatus(rows: seq<Record>, value: Value, updates: Record, j: int, k: string)
    requires Run(rows, DonationChecks, DonationStatement(value, updates)).Ok? && 0 <= j < |rows|
    ensures var after := Run(rows, DonationChecks, DonationStatement(value, updates)).value;
      && |after| == |rows|
      && (k != "status" && k != "verified_at" ==> Get(after[j], k) == Get(rows[j], k))
      && (SqlEquals(Get(rows[j], "id"), Stored(value)) ==>
            && Get(after[j], "status") == Stored(Get(updates, "status"))
            && Get(after[j], "verified_at") == Stored(Or(Get(updates, "verified_at"), Null)))
  {
    var status := Get(updates, "status");
    var at := Or(Get(updates, "verified_at"), Undefined);
    assert Or(at, Null) == Or(Get(updates, "verified_at"), Null);
    StatusUpdateAt(rows, value, status, at, j, k);
    StatusUpdateAt(rows, value, status, at, j, "status");
    StatusUpdateAt(rows, value, status, at, j, "verified_at");
  }

  /** Re-reading the row after an update: `getById(value)`. */
  function Reread(rows: seq<Record>, value: Value): Result<Option<Record>, ClientError> {
    match ById(rows, value)
    case Err(e) => Err(Engine(e))
    case Ok(found) => Ok(found)
  }

  // ---------------------------------------------------------------------------

  /** The client object; its handlers hold no state of their own and act on the store. */
  class Client {
    const store: Store

    predicate Valid()
      reads this, store
    {
      store.Valid()
    }

    constructor (store: Store)
      requires store.Valid()
      ensures Valid() && this.store == store
    {
      this.store := store;
    }

    /** One `create` on the handler's table. */
    method Create(h: Handler, record: Record, now: string) returns (r: Result<Record, SqlError>)
      requires Valid()
      modifies store, store.rng
      ensures Valid() && store.rng.drawn == old(store.rng.drawn) + 31
      ensures var id := store.rng.IdAt(old(store.rng.drawn));
        match Run(old(TableOf(h, store.projects, store.donations, store.messages)), ChecksOf(h), InsertOf(h, id, record, now))
        case Ok(t) => TableOf(h, store.projects, store.donations, store.messages) == t && r == Ok(CreatedOf(h, id, record, now))
        case Err(e) =>
          TableOf(h, store.projects, store.donations, store.messages) == old(TableOf(h, store.projects, store.donations, store.messages))
          && r == Err(e)
      ensures forall g :: g != h ==>
        TableOf(g, store.projects, store.donations, store.messages) == old(TableOf(g, store.projects, store.donations, store.messages))
    {
      match h
      case ProjectsApi =>
        r := store.CreateProject(record, now);
      case DonationsApi =>
        r := store.CreateDonation(record, now);
      case MessagesApi =>
        r := store.CreateMessage(record, now);
    }

    /** One `create` of a batch, recording its record or the first failure. */
    method CreateNext(h: Handler, item: Record, now: string, created: seq<Record>, failure: Option<SqlError>)
      returns (created': seq<Record>, failure': Option<SqlError>)
      requires Valid()
      modifies store, store.rng
      ensures Valid() && store.rng.drawn == old(store.rng.drawn) + 31
      ensures CreateOne(h, Batch(old(TableOf(h, store.projects, store.donations, store.messages)), created, failure),
                        store.rng.IdAt(old(store.rng.drawn)), item, now)
        == Batch(TableOf(h, store.projects, store.donations, store.messages), created', failure')
      ensures forall g :: g != h ==>
        TableOf(g, store.projects, store.donations, store.messages) == old(TableOf(g, store.projects, store.donations, store.messages))
    {
      var one := Create(h, item, now);
      created', failure' := created, failure;
      if one.Ok? {
        created' := created + [one.value];
      } else if failure.None? {
        failure' := Some(one.error);
      }
    }

    /** `insert(data)`: one record gives a one-element array, an array gives one created record
        per item in order; any failure gives the error instead, and the creates that worked
        stay. The messages handler takes a single record. */
    method Insert(h: Handler, data: Records, now: string) returns (r: Result<seq<Record>, ClientError>)
      requires Valid()
      requires h == MessagesApi ==> data.One?
      modifies store, store.rng
      ensures Valid()
      ensures var items := AsArray(data);
        var ids := IdsFrom(store.rng, old(store.rng.drawn), |items|);
        var b := CreateAll(h, old(TableOf(h, store.projects, store.donations, store.messages)), items, ids, now);
        && TableOf(h, store.projects, store.donations, store.messages) == b.rows
        && store.rng.drawn == old(store.rng.drawn) + 31 * |items|
        && r == if b.failure.Some? then Err(Engine(b.failure.value)) else Ok(b.created)
      ensures forall g :: g != h ==>
        TableOf(g, store.projects, store.donations, store.messages) == old(TableOf(g, store.projects, store.donations, store.messages))
    {
      var items := AsArray(data);
      ghost var rows0 := TableOf(h, store.projects, store.donations, store.messages);
      ghost var ids := IdsFrom(store.rng, store.rng.drawn, |items|);
      ghost var from := store.rng.drawn;
      var created: seq<Record> := [];
      var failure: Option<SqlError> := None;
      var i := 0;
      while i < |items|
        invariant 0 <= i <= |items| && Valid()
        invariant store.rng.drawn == from + 31 * i
        invariant CreateAll(h, rows0, items[..i], ids[..i], now) ==
          Batch(TableOf(h, store.projects, store.donations, store.messages), created, failure)
        invariant forall g :: g != h ==>
          TableOf(g, store.projects, store.donations, store.messages) == old(TableOf(g, store.projects, store.donations, store.messages))
      {
        CreateAllNext(h, rows0, items, ids, now, i);
        IdsFromAt(store.rng, from, |items|, i, store.rng.drawn);
        created, failure := CreateNext(h, items[i], now, created, failure);
        i := i + 1;
      }
      assert items[..i] == items && ids[..i] == ids;
      r := if failure.Some? then Err(Engine(failure.value)) else Ok(created);
    }

    /** `update(updates).eq(column, value)`: projects only by `id`, then re-read; donations only
        by `id` with a truthy `status`, then re-read; anything else is an error that changes
        nothing. The messages handler has no `update`. */
    method Update(h: Handler, updates: Record, column: string, value: Value, now: string)
      returns (r: Result<Option<Record>, ClientError>)
      requires Valid()
      modifies store
      ensures Valid() && store.messages == old(store.messages)
      ensures match h
        case MessagesApi =>
          r == Err(NotAFunction) && store.projects == old(store.projects) && store.donations == old(store.donations)
        case ProjectsApi =>
          store.donations == old(store.donations) &&
          if column != "id" then store.projects == old(store.projects) && r == Err(UpdateOnlyById)
          else (match ProjectUpdateRun(old(store.projects), value, updates, now)
            case Ok(t) => store.projects == t && r == Reread(t, value)
            case Err(e) => store.projects == old(store.projects) && r == Err(Engine(e)))
        case DonationsApi =>
          store.projects == old(store.projects) &&
          if column != "id" || !Truthy(Get(updates, "status")) then
            store.donations == old(store.donations) && r == Err(UpdateOnlyStatusById)
          else match Run(old(store.donations), DonationChecks, DonationStatement(value, updates))
            case Ok(t) => store.donations == t && r == Reread(t, value)
            case Err(e) => store.donations == old(store.donations) && r == Err(Engine(e))
    {
      match h
      case MessagesApi =>
        r := Err(NotAFunction);
      case ProjectsApi =>
        if column != "id" {
          r := Err(UpdateOnlyById);
        } else {
          var done := store.UpdateProject(value, updates, now);
          r := if done.Err? then Err(Engine(done.error)) else Reread(store.projects, value);
        }
      case DonationsApi =>
        if column != "id" || !Truthy(Get(updates, "status")) {
          r := Err(UpdateOnlyStatusById);
        } else {
          var done := store.UpdateDonationStatus(value, Get(updates, "status"), Or(Get(updates, "verified_at"), Undefined));
          r := if done.Err? then Err(Engine(done.error)) else Reread(store.donations, value);
        }
    }

    /** `delete().eq(column, value)`: not implemented; only projects have it. */
    method Delete(h: Handler, column: string, value: Value) returns (r: Result<(), ClientError>)
      ensures r == Err(if h == ProjectsApi then DeleteNotImplemented else NotAFunction)
    {
      r := Err(if h == ProjectsApi then DeleteNotImplemented else NotAFunction);
    }

    /** `rpc(functionName, params)`: no function is implemented. */
    method Rpc(functionName: string, params: Record) returns (r: Result<(), ClientError>)
      ensures r == Err(RpcNotImplemented)
    {
      r := Err(RpcNotImplemented);
    }
  }
}
