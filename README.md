# Lynda Mbah Foundation data layer, modelled in Dafny

The foundation's web site keeps three tables: projects, donations and contact messages. It
reaches them through four layers, and this project models each one:

- **`src/lib/database.ts`** is the persistent data layer over an embedded SQLite engine:
  - `projectsDb`, `donationsDb` and `contactMessagesDb` build INSERT and UPDATE statements with
    `?` placeholders;
  - they return the created records and map stored values back (the 0/1 `responded` flag);
  - `getStats` reports totals;
  - `generateId` fills a version-4 UUID template from `Math.random`.
- **`src/lib/browser-db.ts`** is a Supabase-shaped shim:
  - it works on an sql.js database when one could be opened;
  - otherwise it works on an in-memory fallback store, seeded with the demo projects.
- **`src/lib/sqlite-client.ts`** is a Supabase-shaped client class over the data layer:
  - `from(table)` returns one of three handlers;
  - each handler has `select` reads, `insert`, `update`, and (for projects) `delete`.
- **The UI**:
  - `DonationForm.tsx` validates a donation, records it as pending and increments the
    project's `raised` total;
  - `ProjectCard.tsx` computes the percentage bar;
  - `Impact.tsx` runs the counting-up animation.

## How the model is organised

| file | module | what it holds |
|---|---|---|
| `values.dfy` | `Values` | JavaScript values, plain objects as ordered entry lists, string length in UTF-16 code units, `Get`, truthiness and `||`, the object spread `{...a, ...b}`, the value order the comparators and `ORDER BY` use |
| `tables.dfy` | `Tables` | the pure reads `find`, `findIndex`, `slice(0, n)`, the stable comparator `sort` on a copy, and the fallback's update of the first match |
| `sql.dfy` | `Sql` | statements as data (columns, placeholders, bound parameters), their text, the number of `?` in it, and their effect on one table under the schema's constraints |
| `uuid.dfy` | `Uuid` | `generateId` over its 31 draws, and the global `Math.random` stream as the class `Entropy` |
| `database.ts` → `database.dfy` | `Database` | the statements and returned records of every create/update, the reads, `getStats`, and the class `Store` holding the three tables |
| `browser-db.ts` → `browser_db.dfy` | `BrowserDb` | the class `Browser` holding `isInitialized`, the `db` handle (the engine's tables) and `fallbackData`, with `initDB`, the reads, `insert` and `update` |
| `sqlite-client.ts` → `sqlite_client.dfy` | `SqliteClient` | `from`, the handlers' reads, and the class `Client` whose `insert`/`update` change the store |
| `DonationForm.tsx` → `donation_form.dfy` | `DonationForm` | the schema, the pending record, and the class `Form` with the `isProcessing`/`isSuccess` flags and a log of requests |
| `ProjectCard.tsx` → `project_card.dfy` | `ProjectCard` | `Math.round` and the capped percentage |
| `Impact.tsx` → `impact.dfy` | `Impact` | the step and the tick loop as a `while` loop |

Modelling choices:

- **The SQLite engine** is not run.
  - A table is its rows in rowid order.
  - A statement's effect is the function `Sql.Run`:
    - an `undefined` parameter is refused, since sql.js will not bind it;
    - an INSERT is checked against the `NOT NULL` and `CHECK (… IN …)` constraints and the
      `id` primary key, then appended;
    - an UPDATE rewrites the rows whose `WHERE` column equals the bound value under SQL `=`,
      where NULL equals nothing;
    - booleans are stored as 0/1.
- **External inputs are parameters**:
  - the `Math.random` draws are a stream `nat -> [0, 1)`;
  - the clock is a `now` string;
  - how opening sql.js went is an `InitOutcome`;
  - the hosted backend's answers to the donation form are the form's inputs.
- **Stateful parts are classes** whose methods are proved against specification functions,
  which are themselves specified by lemmas:
  - `Database.Store`;
  - `BrowserDb.Browser`;
  - `SqliteClient.Client`;
  - `DonationForm.Form`;
  - `Uuid.Entropy`.

## Model

| member | source | states |
|---|---|---|
| Values.AsArray | src/lib/browser-db.ts:288 | one record becomes a one-element array; an array is kept as given |
| Values.GetOverlay | src/lib/browser-db.ts:334 | reading `{ ...a, ...b }`: a key has b's value when b has it, else a's; the key set is the union |
| Values.OverlayKeys | src/lib/browser-db.ts:306 | spreading keeps a's keys in place and in order at the front |
| Values.Utf16Length | src/components/donation/DonationForm.tsx:23 | `.length` lies between the number of characters and twice it, and equals it exactly when no character lies outside the Basic Multilingual Plane |
| Values.LessTotal | src/lib/browser-db.ts:271-274 | the value order the comparator uses is total |
| Values.LessTransitive | src/lib/browser-db.ts:271-274 | the comparator's order is transitive |
| Values.LessIrreflexive | src/lib/browser-db.ts:271-274 | no value sorts strictly before itself |
| Tables.FindIndex | src/lib/browser-db.ts:332 | -1 exactly when no row's column is `===` the value; otherwise the index of the first such row |
| Tables.FindFirst | src/lib/browser-db.ts:225 | `find(...) \|\| null`: none exactly when no row matches; otherwise the first matching row |
| Tables.Slice | src/lib/browser-db.ts:248 | `slice(0, count)` is a prefix, of length min(count, n), or n + count floored at 0 for a negative count |
| Tables.SortByCorrect | src/lib/browser-db.ts:271-274 | the sorted copy is a permutation of the rows, ordered on the column in the requested direction |
| Tables.UpdateFirstEffect | src/lib/browser-db.ts:331-335 | only the first row whose column matches changes, taking the updates' values over its own; with no match nothing changes |
| Sql.SetList | src/lib/database.ts:314 | `key = ?` for each field, in order, one placeholder each |
| Sql.PlaceholderCount | src/lib/database.ts:298-302 | the statement text carries exactly one `?` per placeholder when no name contains `?` |
| Sql.InsertTextCount | src/lib/database.ts:359-363 | an INSERT's text has one `?` per placeholder among its value slots |
| Sql.UpdateTextCount | src/lib/database.ts:321-325 | an UPDATE's text has one `?` per assignment placeholder, plus one for the WHERE value |
| Sql.BindParams | src/lib/database.ts:242 | binding an all-placeholder list puts parameter i, as stored, in slot i |
| Sql.BindLiteralLast | src/lib/database.ts:410 | a trailing literal takes no parameter and holds its own number |
| Sql.AdmitsNotNulls | src/lib/database.ts:92-97 | a row passes the NOT NULL constraints exactly when each listed column holds a non-null value |
| Sql.RunEffect | src/lib/database.ts:260-266 | an INSERT succeeds exactly when the row passes the checks and clashes with no key, and then appends that row; a successful UPDATE changes exactly the selected rows, each column taking its last assignment |
| Sql.RunUpdateAt | src/lib/database.ts:260-266 | one column of one row after a successful UPDATE |
| Sql.UpdatedAt | src/lib/database.ts:321-325 | a row the WHERE clause selects takes the assigned values; other rows keep theirs |
| Sql.AdmitsUpdated | src/lib/database.ts:99 | an updated row still passes every constraint on a column it does not assign |
| Sql.UpdateAccepted | src/lib/database.ts:321-325 | an UPDATE that does not touch `id` and whose rewritten rows pass the checks succeeds on a consistent table |
| Sql.RunConsistent | src/lib/database.ts:90-119 | a successful statement keeps the table consistent: distinct primary keys, every row passing its checks |
| Sql.Where | src/lib/database.ts:284 | `WHERE column = ?` keeps exactly the rows whose column equals the bound value under SQL `=` |
| Sql.WhereFirst | src/lib/database.ts:285 | `results[0]` is the first row in rowid order that matches |
| Sql.WhereNone | src/lib/database.ts:286 | with no matching row the result set is empty |
| Sql.WhereKeyUnique | src/lib/database.ts:91 | under the primary key, selecting by `id` finds at most one row |
| Uuid.Nibble | src/lib/database.ts:424 | `Math.random() * 16 \| 0` is the integer part of 16·x, in 0..15 |
| Uuid.Variant | src/lib/database.ts:425 | `r & 0x3 \| 0x8` lies in 8..11 and keeps r's low two bits |
| Uuid.HexDigit | src/lib/database.ts:426 | `toString(16)` of a nibble is a lower-case hexadecimal digit |
| Uuid.HexRoundTrip | src/lib/database.ts:426 | the digit reads back as the nibble |
| Uuid.Fill | src/lib/database.ts:423 | `replace(/[xy]/g, …)` keeps the template's length, one draw per `x` or `y` |
| Uuid.TemplateHoles | src/lib/database.ts:423 | the template has 31 `x`/`y` positions, so one identifier takes 31 draws |
| Uuid.GenerateId | src/lib/database.ts:422-428 | `generateId()` from its 31 draws; its shape is stated by `Uuid.IdShape`, `Uuid.GenerateIdParts` and `Uuid.IdDigits` |
| Uuid.GenerateIdParts | src/lib/database.ts:422-428 | the identifier is five groups of 8, 4, 4, 4 and 12 characters: the draws' digits, with `4` as the version digit and a variant digit |
| Uuid.IdShape | src/lib/database.ts:422-428 | 36 characters, hyphens at 8, 13, 18 and 23, `4` at 14, `8`/`9`/`a`/`b` at 19, lower-case hexadecimal elsewhere (RFC 4122, sections 4.1.1 and 4.4) |
| Uuid.DrawShown | src/lib/database.ts:423-427 | the character the k-th draw becomes, and where it lands |
| Uuid.IdDigits | src/lib/database.ts:422-428 | every draw can be read back from the identifier: its nibble, or for the variant digit its low two bits |
| Uuid.Entropy.Window | src/lib/database.ts:424 | the 31 draws taken from a given position of the stream |
| Uuid.Entropy.IdAt | src/lib/database.ts:422-428 | an identifier made from the draws at a position is 36 characters long |
| Uuid.Entropy.NextId | src/lib/database.ts:422-428 | one call returns the identifier for the current position and takes 31 draws |
| Database.ProjectStatusRoundTrip | src/lib/database.ts:99 | a project status name parses back to the status, and only a status name parses as one |
| Database.DonationStatusRoundTrip | src/lib/database.ts:114 | the same for donation statuses |
| Database.ProjectChecksMeaning | src/lib/database.ts:90-102 | a project row passes the schema exactly when its required columns are set and its status is `active`, `completed` or `upcoming` |
| Database.DonationChecksMeaning | src/lib/database.ts:105-119 | a donation row passes exactly when its required columns are set and its status is `pending`, `verified` or `cancelled` |
| Database.MessageChecksMeaning | src/lib/database.ts:79-87 | a message row passes exactly when name, email and message are set and `responded` is NULL, 0 or 1 |
| Database.GetCreated | src/lib/database.ts:309 | `{ id, ...input, ...stamps }` for an input without an `id` property: the stamps win, then the new id, then the input's own properties (an input `id` would beat the new id; the lemma does not cover that case) |
| Database.ProjectInsert | src/lib/database.ts:298-307 | the project INSERT has eleven columns and one bound parameter per placeholder |
| Database.ProjectInsertText | src/lib/database.ts:298-307 | its text has one `?` per parameter |
| Database.CreatedProjectShape | src/lib/database.ts:309 | the returned project has the new id, `created_at` = `updated_at` = now, and otherwise the input's properties |
| Database.ProjectCreateRoundTrip | src/lib/database.ts:294-310 | column by column, the stored row holds what the returned object holds, as stored |
| Database.ProjectUpdate | src/lib/database.ts:312-326 | an update that has a statement has a well-formed UPDATE |
| Database.EntriesWithoutIdSpec | src/lib/database.ts:315-317 | dropping `id` keeps every other property with its value and order; it is empty exactly when every key is `id` |
| Database.KeysAligned | src/lib/database.ts:314-317 | the filtered keys and the filtered values stay aligned |
| Database.ProjectUpdateShape | src/lib/database.ts:314-325 | no statement exactly when every key is `id`; otherwise the SET list is the kept keys then `updated_at`, and the parameters are the kept values, then now, then the target id |
| Database.ProjectUpdateText | src/lib/database.ts:321-325 | the update text has one `?` per parameter |
| Database.ProjectAssigned | src/lib/database.ts:321-325 | the bound SET list is the kept properties as stored, then `updated_at` = now |
| Database.ProjectUpdateEffect | src/lib/database.ts:312-326 | only the row with that id changes: `updated_at` becomes now, each updated non-id property takes its new value, and all else stays |
| Database.ProjectUpdateAt | src/lib/database.ts:312-326 | one row and column of that effect |
| Database.AssignedLast | src/lib/database.ts:323 | in the project SET list each column is assigned once, and `id` is never assigned |
| Database.DonationInsert | src/lib/database.ts:359-368 | the donation INSERT is well formed, with twelve columns |
| Database.DonationInsertText | src/lib/database.ts:359-368 | its text has one `?` per parameter |
| Database.CreatedDonationShape | src/lib/database.ts:370 | the returned donation has the new id, `created_at` = now, and otherwise the input's properties |
| Database.DonationCreateRoundTrip | src/lib/database.ts:355-371 | column by column, the stored row holds what the returned donation holds, as stored |
| Database.MessageInsert | src/lib/database.ts:408-411 | the message INSERT is well formed: six placeholders and the literal 0 |
| Database.MessageInsertText | src/lib/database.ts:408-411 | its text has one `?` per parameter; the literal `0` takes none |
| Database.ReadMessageMeaning | src/lib/database.ts:389-392 | reading keeps every column except `responded`, which becomes a boolean: 0 reads false, 1 reads true |
| Database.MessageResponded | src/lib/database.ts:409-413 | the stored row has `responded` = 0 whatever the input, and both the returned object and a re-read say false |
| Database.MessageCreateRoundTrip | src/lib/database.ts:404-414 | column by column, the stored message holds what the returned object holds, with `responded` stored as 0 |
| Database.StatusUpdate | src/lib/database.ts:373-379 | the status update is a well-formed UPDATE |
| Database.StatusAssigned | src/lib/database.ts:376-378 | it assigns the status and `verifiedAt \|\| null` |
| Database.StatusUpdateAt | src/lib/database.ts:373-379 | one row and column after a successful status update |
| Database.StatusUpdateEffect | src/lib/database.ts:373-379 | only the donation with that id changes: its status, and its `verified_at`, which becomes NULL when no time is given |
| Database.StatusUpdatedRow | src/lib/database.ts:377 | a row is selected exactly when its id equals the given one; unselected rows are unchanged |
| Database.StatusUpdateAccepted | src/lib/database.ts:114 | on a consistent table the update succeeds exactly when both values are bound and, if a row has the id, the status is a status name |
| Database.StatusUpdateAdmitted | src/lib/database.ts:373-379 | a bound update with a valid status, or one that selects no row, succeeds |
| Database.StatusUpdateRefused | src/lib/database.ts:114 | a status outside the enumeration is refused once a row has the id |
| Database.DonationChecksOnStatus | src/lib/database.ts:114-116 | no donation constraint is on `verified_at`, and a status name passes the status check |
| Database.MarkResponded | src/lib/database.ts:417 | the mark statement is a well-formed UPDATE |
| Database.MarkAssigned | src/lib/database.ts:417 | it assigns `responded` = 1 and selects on the given id |
| Database.MarkRespondedAt | src/lib/database.ts:416-418 | only the message with that id changes, its `responded` becoming 1, which reads back as true |
| Database.MarkRespondedAccepted | src/lib/database.ts:416-418 | on a consistent table marking succeeds exactly when the id is bound |
| Database.NewestFirst | src/lib/database.ts:278-281 | `ORDER BY created_at DESC` returns every row once, newest first |
| Database.ById | src/lib/database.ts:283-287 | `getById`: an error exactly when the id is unbound; undefined exactly when no row has the id; otherwise a row holding it |
| Database.ByIdFound | src/lib/database.ts:283-287 | under distinct keys the row found is the one with that id |
| Database.MessagesNewestFirst | src/lib/database.ts:384-393 | listing messages returns one record per row |
| Database.MessagesNewestFirstMeaning | src/lib/database.ts:384-393 | in newest-first order, each listed message keeps its row's columns, with `responded` as `Boolean(row.responded)` |
| Database.MessageById | src/lib/database.ts:395-402 | a message found has the id, and its `responded` is a boolean |
| Database.ProjectTitleMeaning | src/lib/database.ts:333-335 | through the LEFT JOIN, a donation's `project_title` is NULL when no project matches, else the matching project's title |
| Database.WithTitleMeaning | src/lib/database.ts:333 | `d.*, p.title as project_title` keeps every donation column and adds the title |
| Database.DonationsWithTitles | src/lib/database.ts:331-339 | every donation once, each with its title, newest first |
| Database.SumOrZero | src/lib/database.ts:442 | `total \|\| 0` turns `SUM(amount)` into the plain sum, 0 for no rows |
| Database.SumAmountsNull | src/lib/database.ts:435 | `SUM` is NULL exactly when no row has an amount |
| Database.StatsMeaning | src/lib/database.ts:431-445 | every figure is a number: the counts of projects, active projects, verified donations and messages, and the verified total |
| Database.StatsEmpty | src/lib/database.ts:438-444 | on empty tables every figure is 0 |
| Database.GetStats | src/lib/database.ts:431-445 | the five figures from the three tables; what they mean is stated by `Database.StatsMeaning` and `Database.StatsEmpty` |
| Database.ExecuteCommand | src/lib/database.ts:260-274 | running one statement keeps the table consistent and returns the engine's result or error |
| Database.Store.constructor | src/lib/database.ts:11 | the one database instance starts with the given tables, whose keys are distinct and whose rows pass the schema |
| Database.Store.CreateProject | src/lib/database.ts:294-310 | draws one identifier, runs the project INSERT, and returns the created project or the engine's error |
| Database.Store.UpdateProject | src/lib/database.ts:312-326 | issues nothing when only `id` is given; otherwise the projects table becomes the UPDATE's result |
| Database.Store.CreateDonation | src/lib/database.ts:355-371 | draws one identifier, runs the donation INSERT, and returns the created donation or the error |
| Database.Store.UpdateDonationStatus | src/lib/database.ts:373-379 | the donations table becomes the status update's result |
| Database.Store.CreateMessage | src/lib/database.ts:404-414 | draws one identifier, runs the message INSERT, and returns the created message or the error |
| Database.Store.MarkAsResponded | src/lib/database.ts:416-418 | the messages table becomes the mark update's result |
| BrowserDb.IdFor | src/lib/browser-db.ts:296 | `record.id \|\| generateId()` is always truthy: the record's own id when truthy, without a draw, else a fresh identifier taking 31 draws |
| BrowserDb.Copies | src/lib/browser-db.ts:303-307 | the copies the fallback pushes and the draws taken; stated by `BrowserDb.CopiesMeaning` |
| BrowserDb.CopiesMeaning | src/lib/browser-db.ts:303-307 | each pushed copy is its record with a truthy id, its own id kept when truthy, and every other property unchanged |
| BrowserDb.CopiesLength | src/lib/browser-db.ts:303-307 | one copy per record |
| BrowserDb.ColumnsAsWritten | src/lib/browser-db.ts:291 | `Object.keys(recordsArray[0])`: the first record's keys, in order, and nothing else; its effect on the rows is stated by `BrowserDb.EngineInsertionMeaning` and `BrowserDb.EngineInsertDropsIds` |
| BrowserDb.InsertColumns | src/lib/browser-db.ts:291-297 | corrected, not the source's column list (see Findings): the first record's keys in their order, with `id` appended when missing, so `id` is always a column |
| BrowserDb.InsertOne | src/lib/browser-db.ts:297-298 | one run of the prepared INSERT is a well-formed statement |
| BrowserDb.InsertOneRow | src/lib/browser-db.ts:297 | the stored row holds, column by column, the computed id for `id` and otherwise the record's value |
| BrowserDb.IdDroppedAsWritten | src/lib/browser-db.ts:291-297 | as written, a first record without `id` gives a statement that stores no `id` |
| BrowserDb.IdStoredAt | src/lib/browser-db.ts:297 | whenever `id` is one of the columns, the stored row's `id` is the id the loop computed |
| BrowserDb.IdStored | src/lib/browser-db.ts:291-297 | corrected: with the corrected column list, the stored row always holds the id the loop computed |
| BrowserDb.InsertRunsNext | src/lib/browser-db.ts:295-299 | the loop one record further on is one more step |
| BrowserDb.InsertRunsStop | src/lib/browser-db.ts:298 | once a run throws, the rest of the loop changes nothing |
| BrowserDb.InsertRunsGrow | src/lib/browser-db.ts:295-299 | the table only grows; when every run succeeds it grows by one row per record |
| BrowserDb.InsertRunsIds | src/lib/browser-db.ts:295-299 | every row the loop adds holds exactly the statement's columns, in order, and a truthy id when `id` is one of them |
| BrowserDb.InsertStepRow | src/lib/browser-db.ts:296-298 | one successful pass appends one row, keeping the rows before it; the row holds exactly the statement's columns, and a truthy id when `id` is one of them |
| BrowserDb.RunInsert | src/lib/browser-db.ts:292-299 | the prepared INSERT run once per record with given columns, stopping at the first failed run; stated by `BrowserDb.RunInsertMeaning` |
| BrowserDb.RunInsertMeaning | src/lib/browser-db.ts:292-299 | the loop touches only its table; on success the table is the old rows followed by one row per record, each with exactly the statement's columns and a truthy id when `id` is one of them |
| BrowserDb.EngineInsertion | src/lib/browser-db.ts:288-313 | the engine insert as written: no records throw, a first record without properties gives an INSERT that does not parse, otherwise the loop runs on the first record's keys |
| BrowserDb.EngineInsertionMeaning | src/lib/browser-db.ts:288-313 | the engine insert as written touches only its table; with no records, or a first record without properties, it changes nothing and fails; on success the table is the old rows followed by one row per record, each holding exactly the first record's keys as columns, with a truthy id when the first record has an `id` property |
| BrowserDb.EngineInsertDropsIds | src/lib/browser-db.ts:291-297 | as written, when the first record has no `id` property, no row the insert adds has an `id` column: the computed ids are dropped |
| BrowserDb.CorrectedInsertion | src/lib/browser-db.ts:288-301 | corrected, not the source: the same loop on the corrected column list |
| BrowserDb.CorrectedInsertionMeaning | src/lib/browser-db.ts:288-301 | corrected: on success the table is the old rows followed by one row per record, every one holding a truthy id |
| BrowserDb.UpdateStatement | src/lib/browser-db.ts:324-326 | the engine update is a well-formed UPDATE |
| BrowserDb.UpdateAssigned | src/lib/browser-db.ts:324-326 | it assigns every key of the updates, in order and as stored, and compares the given column with the given value |
| BrowserDb.UpdateStatementEffect | src/lib/browser-db.ts:323-327 | a row whose column equals the value takes the updates for their keys; every other column and row is unchanged |
| BrowserDb.EngineUpdate | src/lib/browser-db.ts:323-328 | the engine update: an empty SET list does not parse, an unknown table fails to prepare, otherwise the UPDATE's result; its effect is stated by `BrowserDb.UpdateStatementEffect` |
| BrowserDb.FallbackUpdate | src/lib/browser-db.ts:330-336 | the fallback update; stated by `BrowserDb.FallbackUpdateMeaning` |
| BrowserDb.FallbackUpdateMeaning | src/lib/browser-db.ts:330-336 | the fallback update changes only the named table, and there only the first `===` match, spreading the updates over it |
| BrowserDb.InsertText | src/lib/browser-db.ts:292-293 | the INSERT text has one `?` per column, matching the values bound |
| BrowserDb.UpdateText | src/lib/browser-db.ts:324-326 | the UPDATE text has one `?` per key plus one for the WHERE value, matching the values bound |
| BrowserDb.FallbackPush | src/lib/browser-db.ts:305-306 | pushing one more copy appends it to the table, creating the table on the first push |
| BrowserDb.IdColumn | src/lib/browser-db.ts:297 | in a column list holding `id`, the position of its first `id` column |
| BrowserDb.HandleAfter | src/lib/browser-db.ts:56-85 | the `db` handle after `initDB()`: unchanged once initialized, unset when opening failed, else the opened database; the flag itself is stated by `BrowserDb.Browser.InitDB` |
| BrowserDb.Browser.constructor | src/lib/browser-db.ts:169-173 | `fallbackData` holds a copy of the demo projects and empty donations and messages; `db` is unset and `isInitialized` false (lines 9-10) |
| BrowserDb.Browser.InitDB | src/lib/browser-db.ts:56-85 | nothing changes once initialized; otherwise the shim always ends initialized, with the database that opened, or the fallback |
| BrowserDb.Browser.SelectAll | src/lib/browser-db.ts:193-211 | every row of the table, from the engine in rowid order or from the fallback (`[]` for an unknown table) |
| BrowserDb.Browser.SelectSingle | src/lib/browser-db.ts:213-229 | the first row whose column equals the value: `find` on the fallback, the first matching row in the engine; null when none |
| BrowserDb.Browser.SelectLimit | src/lib/browser-db.ts:233-254 | the first `count` rows; the fallback follows `slice`, SQLite reads a negative LIMIT as no limit |
| BrowserDb.Browser.SelectOrder | src/lib/browser-db.ts:256-280 | a copy sorted on the column, descending unless `ascending` is set |
| BrowserDb.Browser.IdOf | src/lib/browser-db.ts:296 | the id is `IdFor` of the record at the stream's position, which advances accordingly |
| BrowserDb.Browser.FallbackInsert | src/lib/browser-db.ts:303-307 | the fallback becomes the old one with every copy pushed in order |
| BrowserDb.Browser.EngineInsert | src/lib/browser-db.ts:290-301 | the tables, the draws and the outcome are those of the insert as written, `BrowserDb.EngineInsertion` |
| BrowserDb.Browser.Insert | src/lib/browser-db.ts:284-314 | after `initDB`, the records go to the engine or the fallback; the result is the input records, or the failure |
| BrowserDb.Browser.Update | src/lib/browser-db.ts:316-345 | after `initDB`, the fallback update or the engine's; the engine reports its error |
| SqliteClient.From | src/lib/sqlite-client.ts:221-232 | any other table name throws `Table … not supported` |
| SqliteClient.FromRoundTrip | src/lib/sqlite-client.ts:221-232 | `from` accepts exactly the three table names, each giving its own handler |
| SqliteClient.Filter | src/lib/sqlite-client.ts:27 | `filter` keeps only listed rows whose column is `===` the value |
| SqliteClient.FilterHead | src/lib/sqlite-client.ts:27-28 | `filtered[0] \|\| null` is what `find` would return |
| SqliteClient.EqSingle | src/lib/sqlite-client.ts:20-29 | `select().eq(column, value).single()` per handler; stated by `SqliteClient.EqSingleMeaning` and `SqliteClient.EqSingleById` |
| SqliteClient.EqSingleMeaning | src/lib/sqlite-client.ts:20-29 | off `id`, `single()` gives the first listed row whose column is `===` the value, or null |
| SqliteClient.EqSingleById | src/lib/sqlite-client.ts:22-25 | on `id` under distinct keys, the row with that id |
| SqliteClient.Limit | src/lib/sqlite-client.ts:31-33 | `limit(count)` on projects; stated by `SqliteClient.LimitMeaning` |
| SqliteClient.LimitSingle | src/lib/sqlite-client.ts:35-38 | `limit(count).single()`; stated by `SqliteClient.LimitMeaning` |
| SqliteClient.LimitMeaning | src/lib/sqlite-client.ts:31-38 | `limit` is a prefix of the newest-first listing of the length `slice` gives; `single()` is its head, null when empty |
| SqliteClient.Order | src/lib/sqlite-client.ts:40-48 | `order(column, options)` on the listing; stated by `SqliteClient.OrderMeaning` |
| SqliteClient.OrderMeaning | src/lib/sqlite-client.ts:40-50 | `order` returns the listing's rows as a permutation, sorted on the column, descending unless `ascending` |
| SqliteClient.InsertOf | src/lib/sqlite-client.ts:61 | every handler's create issues a well-formed INSERT |
| SqliteClient.CreateOneMeaning | src/lib/sqlite-client.ts:61 | a create that succeeds appends one row and returns its record; after a failure the first error is kept |
| SqliteClient.IdsFrom | src/lib/sqlite-client.ts:61 | one identifier per create |
| SqliteClient.IdsFromAt | src/lib/sqlite-client.ts:61 | create i takes the identifier 31·i draws on |
| SqliteClient.CreatedAll | src/lib/sqlite-client.ts:62 | the returned array has one record per item |
| SqliteClient.CreatedAllNext | src/lib/sqlite-client.ts:62 | the returned array grows by one record per item, in item order |
| SqliteClient.CreateAllMeaning | src/lib/sqlite-client.ts:58-70 | the table only grows; when every create succeeds it gains one row per item and the result lists each created record in order |
| SqliteClient.CreateAllNext | src/lib/sqlite-client.ts:61 | the batch one item further on is one more create |
| SqliteClient.DonationStatement | src/lib/sqlite-client.ts:143-148 | a donation update goes out as a well-formed status update |
| SqliteClient.DonationUpdateOnlyStatus | src/lib/sqlite-client.ts:140-157 | it writes only `status` and `verified_at` of the row with the id, whatever else the updates hold |
| SqliteClient.Client.constructor | src/lib/sqlite-client.ts:236 | the client wraps a valid store |
| SqliteClient.Client.Create | src/lib/sqlite-client.ts:61 | one create on the handler's table, through the store's create for that table |
| SqliteClient.Client.CreateNext | src/lib/sqlite-client.ts:61 | the table and the results after one more create are those of `CreateOne` |
| SqliteClient.Client.Insert | src/lib/sqlite-client.ts:58-70 | the handler's table becomes the batch's rows and the other tables are untouched; the result is every created record, or the first error |
| SqliteClient.Client.Update | src/lib/sqlite-client.ts:72-85 | projects only by `id`, donations only for a status by `id`, then re-read; messages have no update; refused calls change nothing |
| SqliteClient.Client.Delete | src/lib/sqlite-client.ts:87-92 | `delete` is not implemented; only projects have it |
| SqliteClient.Client.Rpc | src/lib/sqlite-client.ts:191-194 | every RPC reports `RPC not implemented` |
| DonationForm.AtLeastTwoMeaning | src/components/donation/DonationForm.tsx:23 | `min(2)` counts UTF-16 code units: for text inside the Basic Multilingual Plane it means two or more characters, and a single character outside it (an emoji) already passes |
| DonationForm.Accepted | src/components/donation/DonationForm.tsx:22-31 | `donationSchema`: name and confirmation of at least two UTF-16 code units, a valid e-mail, a parsed amount above 0, any message; the gate of `DonationForm.Form.Submit` |
| DonationForm.OrNull | src/components/donation/DonationForm.tsx:68-70 | `s \|\| null` is null exactly when s is absent or empty, else s |
| DonationForm.PendingDonationMeaning | src/components/donation/DonationForm.tsx:64-73 | the record is pending and carries the form's name, e-mail, confirmation and parsed amount; an empty or absent message, project id or project name is null |
| DonationForm.NewRaised | src/components/donation/DonationForm.tsx:90 | the new total is the old total plus the amount, with a null total counting as 0 |
| DonationForm.Form.constructor | src/components/donation/DonationForm.tsx:40-41 | neither processing nor succeeded, nothing sent |
| DonationForm.Form.HandleDonation | src/components/donation/DonationForm.tsx:54-115 | the donation is inserted first; only after a successful insert with a project id is the total read, and only when the read returns the project is it written back; success and `onSuccess` only after a successful insert; every request goes out while processing, and processing ends on every path |
| DonationForm.Form.Submit | src/components/donation/DonationForm.tsx:140 | a submission that fails the schema sends nothing and changes nothing; one that passes inserts the pending donation first |
| DonationForm.Form.Reset | src/components/donation/DonationForm.tsx:130 | "make another donation" clears `isSuccess` only |
| DonationForm.RaisedWrittenOnlyWhen | src/components/donation/DonationForm.tsx:77-95 | the total is written exactly when the insert succeeded, a project id is set and the read returned the project, and then as old total (or 0) plus amount |
| ProjectCard.Round | src/components/projects/ProjectCard.tsx:23 | `Math.round(x)` is within half a unit of x, with halves rounding up |
| ProjectCard.RoundUnique | src/components/projects/ProjectCard.tsx:23 | it is the only such integer |
| ProjectCard.RoundMonotone | src/components/projects/ProjectCard.tsx:23 | rounding does not decrease as its argument grows |
| ProjectCard.Progress | src/components/projects/ProjectCard.tsx:23 | `Math.min(100, Math.round((raised / target) * 100))`; stated by the three lemmas below |
| ProjectCard.ProgressCapped | src/components/projects/ProjectCard.tsx:23 | progress never exceeds 100, and is 100 once the target is met |
| ProjectCard.ProgressFloor | src/components/projects/ProjectCard.tsx:23 | nothing raised shows 0; a non-negative total never shows a negative percent |
| ProjectCard.ProgressRounds | src/components/projects/ProjectCard.tsx:23 | progress is 100 exactly when 100·raised/target ≥ 99.5; below that it is 100·raised/target rounded half up |
| Impact.Step | src/components/home/Impact.tsx:16-18 | the step is at least 1, and is ⌊count/100⌋ once that is at least 2 |
| Impact.Ticks | src/components/home/Impact.tsx:21-28 | at least one tick runs |
| Impact.StepsWithin | src/components/home/Impact.tsx:23 | k steps stay within a non-negative count exactly while k ≤ ⌊count/step⌋ |
| Impact.Animate | src/components/home/Impact.tsx:20-28 | the loop runs ⌊count/step⌋ + 1 ticks (one for a negative count), tick k showing min((k+1)·step, count) |
| Impact.Shown | src/components/home/Impact.tsx:22-27 | what the k-th tick shows; stated by `Impact.Animate` and the lemmas below |
| Impact.ShownAtMost | src/components/home/Impact.tsx:24-26 | for count ≥ 0 no tick shows more than count |
| Impact.ShownNondecreasing | src/components/home/Impact.tsx:20-27 | each tick shows at least what the one before it showed |
| Impact.LastShownIsCount | src/components/home/Impact.tsx:23-26 | the last tick shows count itself; every earlier tick shows a whole number of steps |
| Impact.ZeroShownOnce | src/components/home/Impact.tsx:18-26 | a count of 0 is shown once and the timer stops at once |

## Findings

| source | as written | input that shows it | evidently intended | confidence | as-written member | corrected member |
|---|---|---|---|---|---|---|
| src/lib/browser-db.ts:291-297 | the engine INSERT takes its columns from `Object.keys(recordsArray[0])`, and the loop's `record.id \|\| generateId()` is bound only where a column is named `id` | `insert({ name: "A", email: "a@b", message: "hi" })` into `contact_messages`: no `id` column, so the generated id is drawn but never stored | every inserted row carries the id the loop computed | not executed | BrowserDb.EngineInsertDropsIds | BrowserDb.CorrectedInsertionMeaning |

The class `BrowserDb.Browser` runs the insert as written (`BrowserDb.EngineInsertion`). On one
statement, `BrowserDb.IdDroppedAsWritten` shows the row without `id`. The corrected column list
is `BrowserDb.InsertColumns`, which appends `id` when the first record lacks it.
`BrowserDb.CorrectedInsertion` runs the same loop on it, and every row it adds holds a truthy id
(`BrowserDb.CorrectedInsertionMeaning`, through `BrowserDb.IdStored`).

## Left out

- Loading sql.js, `localStorage`/`localforage` persistence, `saveDB`/`saveDatabase` and the
  schema and seed SQL text. These are a foreign library and I/O.
  - How opening went is the parameter `InitOutcome`.
  - The engine's state is its tables.
  - The schema appears only as its constraints: `NOT NULL`, the status `CHECK`s, `responded IN (0, 1)` and the `id` primary key.
- Column `DEFAULT`s, the `FOREIGN KEY … ON DELETE SET NULL` clause and the indexes are not
  modelled.
  - `src/lib/database.ts:76` turns foreign keys on for a new database. There SQLite refuses a
    donation whose `project_id` names no project. `Database.Store.CreateDonation` accepts it.
  - BrowserDb.EngineInsertion: the browser engine INSERT names only the first record's keys.
    SQLite fills the other columns from their defaults: `created_at` and `updated_at` from
    `CURRENT_TIMESTAMP`, `raised` and `responded` with 0. The modelled row holds only the named
    columns. Later engine reads of those columns, and an `order` on `created_at`, differ.
  - BrowserDb.EngineInsertion: a row stored without `id` has a NULL primary key. SQLite admits
    several such rows in a `TEXT PRIMARY KEY` column, and so does the model, because NULL
    equals nothing.
- SQLite type affinity is not modelled. A value is stored as bound: a number bound to a `TEXT`
  column reads back as a number, not as text.
- BrowserDb.Browser.SelectAll: the fallback `select` returns the stored array itself
  (`src/lib/browser-db.ts:207`), so a caller that mutates the result mutates the store. The model
  returns a value, and that aliasing is not captured.
- The engine does not check column names. An abstract table has no column list, so a
  statement naming an unknown column is not refused.
- `select(columns)` projection is not modelled: every read returns whole rows.
- Ties under `ORDER BY` are taken in rowid order. SQLite leaves that order unspecified.
- Values.StrLess: strings are ordered by Unicode code point, which is SQLite's BINARY order for
  `ORDER BY`. The JavaScript comparators (`src/lib/browser-db.ts:271-274`,
  `src/lib/sqlite-client.ts:42-47`) compare UTF-16 code units instead. The two orders differ when
  a character outside the Basic Multilingual Plane meets one from U+E000 to U+FFFF: JavaScript
  puts "😀" before "\uFFFF", and the model puts it after.
- Values of different kinds order by kind, as SQLite orders them. JavaScript's coercing `<` on
  mixed kinds is not modelled.
- Numbers are exact reals. NaN, infinities and float rounding are left out.
- `projectsDb.getByStatus` and `donationsDb.getByProject` are not modelled: nothing in the
  modelled code calls them.
- The real-time `channel` stubs, `removeChannel`, `subscribeToDonationUpdates` and
  `ensureDemoProjects` are not modelled: they log and hold no state.
- `executeQuery`'s `while (stmt.step())` loop is modelled as the row sequence it collects, not as a loop: it is foreign-library iteration.
- SqliteClient.Client.Insert: the creates under `Promise.all` are modelled one after another in array order, and the batch shares one `now`. In the source each create reads the clock itself and they may interleave.
- SqliteClient.Client.Insert: `contact_messages.insert` is given one record, as its parameter type declares. Passing an array is outside the model.
- DonationForm.Form.HandleDonation: the hosted client is not part of this model (`src/lib/supabase.ts` wraps a foreign library).
  - Its answers are parameters: whether the insert reported an error, and what the project read returned.
  - The update's reported error is ignored, as in the source.
  - `isSuccess == insertOk` assumes neither the read nor the update throws. In the source such a
    throw goes to the `catch` (`DonationForm.tsx:107`), which skips `setIsSuccess(true)` and
    `onSuccess`.
- DonationForm.Form.HandleDonation: the read-then-write of `raised` is modelled sequentially. Concurrent donors can lose an increment.
- DonationForm.Accepted: zod's e-mail check and `parseFloat` are inputs (a flag, and an optional real that is absent for NaN). JavaScript's prefix parsing is not modelled.
- Toasts, `toLocaleString` formatting and the rendering are left out.
- ProjectCard.Progress: requires a positive target. For a zero target the source divides by zero and shows `Infinity` or `NaN`.
- Impact.Animate: `count` is an integer, and each timer tick is one loop iteration. The effect's cleanup on unmount, which stops the timer early, is not modelled.
