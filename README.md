# sqljs-documentstore in Dafny

This project models the core of `sqljs-documentstore`, a typed document store kept in a sql.js (SQLite) database:

- **`TypedDocumentStore`** keeps documents of one type in one table. The table has an `id` primary key, a `json` column holding the encoded document, and one column per declared index accessor. Its constructor prepares the SQL templates, and the rest of the class provides:
  - `init`: creates the table, or adds missing index columns and rebuilds the index cells;
  - reads: `get`, `tryGet`, `getMany`, `tryGetMany`, `exists`, `count`, `getAll`, `queryIndexes`;
  - writes: `set`, `setMany`, `insertMany`, `update`, `upsert`, `remove`, `removeMany`, `removeAll`, `rebuildIndexes`.
- **`sqljsHelpers`** provides:
  - `sanitizeParams`, which coerces bound values: nullish to `null`, loosely true to `1`, loosely false to `0`;
  - `query`, which flattens the last result set into records;
  - `isTable`;
  - `flushHelpers.createAsyncFlushQueue`, which coalesces save triggers.
- **`LockedDatabase`** is the transaction guard. `run` refuses any statement whose transaction id is not the current one. `txn` and `txnAsync` wrap an action in BEGIN, then COMMIT and a flush, or ROLLBACK, then the `finally` bookkeeping.

## Modules, one per concern

| file | module | what it holds |
|---|---|---|
| `wrappers.dfy` | `Wrappers` | `Option`, `Result`, `Outcome` |
| `errors.dfy` | `Errors` | the errors the store, the guard and the engine raise |
| `js_values.dfy` | `JsValues` | the JavaScript values that are bound and read back; loose `==` against booleans and `undefined`; `String(v)` as an object key |
| `sqljs_helpers.dfy` | `SqljsHelpers` | `sanitizeParams`, `query`, `isTable` as written and as intended |
| `sql_templates.dfy` | `SqlTemplates` | the constructor's SQL builders and the `in (...)` placeholder list |
| `locked_database.dfy` | `LockedDb` | class `LockedDatabase`: fields `txnId`, `queued`, `busy`, `hasHook`, and a record of `effects` (statements run, flushes, logging-hook calls) |
| `flush_queue.dfy` | `FlushHelpers` | the two-flag flush queue, as a state machine and as a class |
| `store_model.dfy` | `StoreModel` | the schema, the engine's table as a value, `_buildParams`, `_indexValues`; what each write statement does to the table |
| `store_reads.dfy` | `StoreReads` | every read as a function of the table; the read half of `update`/`upsert` |
| `store_migration.dfy` | `StoreMigration` | the `init` plan, `PRAGMA table_info`, the add-columns migration and the index rebuild |
| `document_store.dfy` | `DocumentStore` | class `TypedDocumentStore` over class `SqlTable` (the engine's table, changed in place); one method per write operation and `init` |

### Modelling choices

- **Engine table.** It is a value `Table(present, columns, rows)`, where `rows` maps a stored id to the row's `json` and cells.
  - A write statement is a function from the table before it to the table after it, or to the engine's error. The errors are: no such table, no such column, a null primary key, and a primary-key clash for the plain insert.
  - Class `SqlTable` holds the table that the store's methods change in place.
- **Order of rows.** The order in which the engine returns rows for a scan or an `in (...)` select is a parameter (`scan`, `fetched`). Its precondition says that it lists exactly the matching ids.
- **JSON.** `JSON.stringify`/`JSON.parse` are the schema's `encode`/`decode`. Predicate `Encodes` states what they guarantee: parsing gives the document back, and the text of an object starts with `{`.
- **Transaction actions.** An action is data: the statements it issues, and possibly the point at which it throws and the error it throws. The transaction id's random hex suffix is a parameter. The lock's state is the field `busy`.
- **Store writes.** Each write method states three things about the new state:
  - what the caller gets back;
  - the engine's table afterwards;
  - what the guard recorded.

  The properties the source promises are lemmas about the specification functions: other rows unchanged, idempotence, insert never overwrites, the document read back after a write, and fresh index cells after the rebuild.

## Model

| member | source | states |
|---|---|---|
| `SqljsHelpers.SanitizeValue` | src/sqljsHelpers.ts:59 | whatever value goes in, what is bound is a SQL value: null, a number, a string or bytes |
| `SqljsHelpers.SanitizeParams` | src/sqljsHelpers.ts:59 | same length as the input, each element mapped on its own |
| `SqljsHelpers.SanitizeParamsCases` | src/sqljsHelpers.ts:59 | the four cases in the source's order: nullish becomes null, otherwise loosely true becomes 1, otherwise loosely false becomes 0, otherwise unchanged; the result is never undefined or a boolean |
| `SqljsHelpers.SanitizeParamsIdempotent` | src/sqljsHelpers.ts:59 | sanitising an already sanitised list changes nothing |
| `JsValues.NonNumericText` | src/sqljsHelpers.ts:59 | a string whose first character is not white space (the full set `Number` skips), a digit, `+`, `-` or `.` is no number equal to 0 or 1, so it is neither loosely true nor loosely false and is bound as it is (JSON object text and ordinary names are such strings) |
| `SqljsHelpers.FromEntries` | src/sqljsHelpers.ts:52 | the record's keys are exactly the column names; each name maps to the cell of its last column, `undefined` past the end of the row |
| `SqljsHelpers.Query` | src/sqljsHelpers.ts:45-53 | no result set, or a last result set without rows, gives `[]`; otherwise one record per row of the last result set, in row order |
| `SqljsHelpers.QueryRecordFields` | src/sqljsHelpers.ts:51-52 | with distinct column names, record i maps `columns[j]` to `row[i][j]` |
| `SqljsHelpers.QueryEmptyLastResult` | src/sqljsHelpers.ts:46-49 | an empty last result set gives no records, whatever comes before it |
| `SqljsHelpers.IsTableAsWrittenMissesTable` | src/sqljsHelpers.ts:58 | as written, the probe reports "no table" even for a table that exists |
| `SqljsHelpers.IsTableFindsTable` | src/sqljsHelpers.ts:58 | the intended probe is true exactly when the table exists |
| `JsValues.NatToStringRoundTrip` | src/TypedDocumentStore.ts:30 | the decimal text of a parameter number is all digits and reads back as that number |
| `SqlTemplates.UpdateClauseRendersInsertBindings` | src/TypedDocumentStore.ts:30-35 | the rendered conflict clause is, column by column, `, c=?k` where `?k` is the positional parameter the insert fills index column `c` from |
| `SqlTemplates.ConflictPathMatchesInsert` | src/TypedDocumentStore.ts:30-35 | the insert binds id to ?1, json to ?2 and index column i to ?(i+3); the conflict clause binds each index column to the same parameter, so both paths write the same values |
| `SqlTemplates.UpdateParamsInRange` | src/TypedDocumentStore.ts:30 | every parameter number in the update clause lies between 3 and n+2; each names a bound value |
| `SqlTemplates.InsertPlaceholderCount` | src/TypedDocumentStore.ts:29-33 | the values list has one `?` per inserted column: 2 plus the number of index columns |
| `SqlTemplates.PlaceholderListShape` | src/TypedDocumentStore.ts:193 | `'?,'.repeat(n).slice(0,-1)` is n `?` separated by n-1 commas, empty for n = 0 (also the list at line 106) |
| `StoreModel.IndexColumns` | src/TypedDocumentStore.ts:27 | the index columns are the declared index names, in declaration order |
| `StoreModel.IndexValues` | src/TypedDocumentStore.ts:210 | one value per declared accessor, in declaration order, each the accessor applied to the document |
| `StoreModel.BuildParamsLayout` | src/TypedDocumentStore.ts:202-208 | the bound parameters are the sanitised id, then the JSON text, then each sanitised accessor value in column order; every one is a SQL value |
| `StoreModel.IndexCells` | src/TypedDocumentStore.ts:34-35 | the cells a write sets are exactly the index columns, each holding its sanitised accessor value |
| `StoreModel.WriteStatements` | src/TypedDocumentStore.ts:166 | one statement per document, in order, with that document's parameters |
| `StoreModel.ApplyWrites` | src/TypedDocumentStore.ts:164-172 | the `forEach` stops at the first statement that throws: it ran at most one statement per document, all of them when none failed, and the failing one is counted |
| `StoreModel.WriteBatch` | src/TypedDocumentStore.ts:164-172 | an empty list sends nothing and leaves the table; under a transaction id that is not current, the first `run` throws before anything reaches the engine |
| `StoreModel.WriteSucceeded` | src/TypedDocumentStore.ts:159 | a write succeeds only when every index column exists and the id is not null (and, for the plain insert, not already stored); the new table is the old one with that row replaced |
| `StoreModel.WriteChangesOneRow` | src/TypedDocumentStore.ts:159 | after `set`, the ids are the old ids plus the document's id, every other row is unchanged, and the columns are unchanged |
| `StoreModel.WrittenRowCells` | src/TypedDocumentStore.ts:34-35 | the written row holds the document's JSON; each index column holds its accessor value; every other column keeps its old cell on the conflict path, or is null for a new row |
| `StoreModel.WriteKeepsTableOk` | src/TypedDocumentStore.ts:159 | a successful write keeps the table's shape: distinct columns, no null key, every row readable under its own id |
| `StoreModel.WriteKeepsIndexesFresh` | src/TypedDocumentStore.ts:159 | if every index cell agreed with its accessor before a write, it still does afterwards |
| `StoreModel.WritesKeepTableOk` | src/TypedDocumentStore.ts:164-172 | however far a `setMany`/`insertMany` gets, the table keeps its shape |
| `StoreModel.SetIdempotent` | src/TypedDocumentStore.ts:159 | setting the same document again leaves the table as the first `set` left it |
| `StoreModel.InsertOfStoredIdFails` | src/TypedDocumentStore.ts:169-172 | the plain insert of an id already stored fails with a primary-key error instead of overwriting |
| `StoreModel.InsertsKeepStoredRows` | src/TypedDocumentStore.ts:169-172 | however far `insertMany` gets, every row stored before it is still there, unchanged |
| `StoreModel.ApplyDelete` | src/TypedDocumentStore.ts:192-193 | a delete on a missing table raises the engine's "no such table" |
| `StoreModel.ApplyDeleteAll` | src/TypedDocumentStore.ts:194 | `delete from T` on a missing table raises the engine's "no such table" |
| `StoreModel.Guarded` | src/TypedDocumentStore.ts:192-194 | a delete under an id that is not current throws before reaching the engine and leaves the table |
| `StoreModel.RemoveManyBatch` | src/TypedDocumentStore.ts:193 | `removeMany([])` sends nothing and leaves the table |
| `StoreModel.DeleteRemovesExactly` | src/TypedDocumentStore.ts:192-193 | after a delete, a row remains exactly when its id is none of the sanitised ids, and every remaining row is unchanged |
| `StoreModel.DeleteKeepsTableOk` | src/TypedDocumentStore.ts:192-194 | the deletes keep the table's shape |
| `StoreReads.TryGet` | src/TypedDocumentStore.ts:79-87 | fails exactly when the table is missing; otherwise finds a document exactly when a row is stored under the sanitised id |
| `StoreReads.Get` | src/TypedDocumentStore.ts:73-77 | `get` succeeds exactly when `tryGet` finds a document, and returns that document; a missing row gives "not found" for that id |
| `StoreReads.Bind` | src/TypedDocumentStore.ts:122 | `exec` binds `exists`' parameter without sanitising it; anything bound is a SQL value |
| `StoreReads.Exists` | src/TypedDocumentStore.ts:121-124 | fails on a missing table; an `undefined` id cannot be bound and throws |
| `StoreReads.ExistsAgreesWithTryGet` | src/TypedDocumentStore.ts:121-124 | for an id that binds as itself, `exists` is true exactly when `tryGet` finds a document |
| `StoreReads.ExistsDiffersFromTryGetOnNumericText` | src/TypedDocumentStore.ts:122 | because `exists` does not sanitise, `exists("1")` is false for a row stored under 1, while `tryGet("1")` finds it |
| `StoreReads.Count` | src/TypedDocumentStore.ts:151-154 | fails on a missing table; otherwise gives the number of rows |
| `StoreReads.DocsOf` | src/TypedDocumentStore.ts:128 | one parsed document per listed row, in the engine's order |
| `StoreReads.GetAll` | src/TypedDocumentStore.ts:126-129 | fails on a missing table |
| `StoreReads.GetAllReturnsStoredDocuments` | src/TypedDocumentStore.ts:126-129 | `getAll` returns one document per row; each document's id is its row's id, and it encodes back to the stored JSON |
| `StoreReads.IndexRow` | src/TypedDocumentStore.ts:146 | a selected row is the id followed by the index cells, in column order |
| `StoreReads.QueryIndexes` | src/TypedDocumentStore.ts:145-149 | fails exactly when the table or an index column is missing |
| `StoreReads.IndexRecordFields` | src/TypedDocumentStore.ts:145-149 | one record per row; each record maps `id` to the row's id and every index column to the row's cell |
| `StoreReads.QueryIndexesReportsAccessorValues` | src/TypedDocumentStore.ts:145-149 | on a table whose index cells are fresh, each record holds the accessor values of its stored document |
| `StoreReads.KeyBy` | src/TypedDocumentStore.ts:107 | `_.keyBy` maps `String(id)` to a fetched row with that key, and holds a key for every fetched row |
| `StoreReads.LookUpAll` | src/TypedDocumentStore.ts:110-115 | the answers follow the ids one for one, in order |
| `StoreReads.TryGetMany` | src/TypedDocumentStore.ts:104-119 | the intended `tryGetMany` (own keys only, see Findings): `[]` for no ids (no query is made); fails on a missing table; otherwise one answer per id, in order |
| `StoreReads.TryGetManyAgreesWithTryGet` | src/TypedDocumentStore.ts:104-119 | for ids whose `String` forms do not collide, answer i is what `tryGet(ids[i])` gives: missing ids give undefined |
| `StoreReads.PlainIdsAreCoherent` | src/TypedDocumentStore.ts:112 | text ids that start with neither white space, a digit, a sign nor a decimal point are bound as themselves, so they never collide under `String` and sanitising |
| `StoreReads.LookUpAllAsWritten` | src/TypedDocumentStore.ts:110-118 | the lookup with `id in rowById`, which also sees inherited names; when it succeeds, one answer per id |
| `StoreReads.InheritedNameBreaksTryGetMany` | src/TypedDocumentStore.ts:112-117 | as written, `tryGetMany(["toString"])` without such a row throws the parse error; the intended lookup and `tryGet` give undefined |
| `StoreReads.InheritedNameBreaksGetMany` | src/TypedDocumentStore.ts:89-94 | as written, `getMany(["toString"])` without such a row throws the parse error; the intended `getMany` reports the id not found |
| `StoreReads.LookUpAllAsWrittenAgrees` | src/TypedDocumentStore.ts:110-115 | for ids that are not inherited object names, the written lookup and the intended one agree |
| `StoreReads.TryGetManyAsWrittenAgrees` | src/TypedDocumentStore.ts:104-119 | for ids that are not inherited object names, `tryGetMany` as written equals the intended one |
| `StoreReads.Positions` | src/TypedDocumentStore.ts:91 | the positions of a flag list that are set, each once and in increasing order (the index form of a filter) |
| `StoreReads.MissingIds` | src/TypedDocumentStore.ts:91 | the filter keeps the ids at the missing positions, one after the other: in input order, with repeated ids kept; it is empty exactly when every answer is present |
| `StoreReads.Collect` | src/TypedDocumentStore.ts:91-93 | succeeds exactly when every answer is present, returning them in order; otherwise "not found" listing the ids at the missing positions, in input order and with repeats |
| `StoreReads.GetMany` | src/TypedDocumentStore.ts:89-94 | the intended `getMany` (over the intended `tryGetMany`, see Findings): `getMany([])` gives `[]` |
| `StoreReads.GetManyAsWritten` | src/TypedDocumentStore.ts:89-94 | `getMany` as written, over `tryGetMany` as written: `getMany([])` gives `[]` |
| `StoreReads.GetManyAsWrittenAgrees` | src/TypedDocumentStore.ts:89-119 | for ids that are not inherited object names, `getMany` as written equals the intended one |
| `StoreReads.Absent` | src/TypedDocumentStore.ts:91 | flags, id by id, whether no row is stored under the sanitised id |
| `StoreReads.GetManyAllOrNothing` | src/TypedDocumentStore.ts:89-94 | the intended `getMany` succeeds exactly when every id is stored, and then answer i is `get(ids[i])`; otherwise it lists the ids with no row, in input order and with repeats |
| `StoreReads.GetManyReportsMissingInOrder` | src/TypedDocumentStore.ts:89-94 | with the first and third of three ids missing, `tryGetMany` gives `[undefined, doc, undefined]` and `getMany` reports the first and third ids, in input order |
| `StoreReads.MissingOfThree` | src/TypedDocumentStore.ts:91 | the missing ids come out in input order |
| `StoreReads.TryGetManyOfThree` | src/TypedDocumentStore.ts:112-117 | with only the middle of three ids stored, `tryGetMany` gives `[undefined, doc, undefined]` |
| `StoreReads.WriteThenGet` | src/TypedDocumentStore.ts:159 | after a write, `get(v.id)` returns `v`, and `tryGet` of any other id answers as before |
| `StoreReads.WriteCount` | src/TypedDocumentStore.ts:151-159 | a write adds one to `count` for a new id and nothing for a stored one |
| `StoreReads.DeleteThenTryGet` | src/TypedDocumentStore.ts:192-193 | after `remove`/`removeMany`, `tryGet` finds none of the ids and answers as before for every other id |
| `StoreReads.DeleteAllEmpties` | src/TypedDocumentStore.ts:194 | after `removeAll`, `count` is 0 and `tryGet` finds nothing |
| `StoreReads.UpdateOfMissingFails` | src/TypedDocumentStore.ts:177-181 | `update` of an id with no row throws "not found" and writes nothing |
| `StoreReads.UpdateStoresActionResult` | src/TypedDocumentStore.ts:177-181 | `update` of a stored id writes one statement, and `get` then returns the action's result |
| `StoreReads.UpsertChoosesBase` | src/TypedDocumentStore.ts:186-190 | `upsert` applies the action to the stored document when there is one, otherwise to the initializer, then `set`s the result |
| `StoreMigration.ExistingColumnsOfTableInfo` | src/TypedDocumentStore.ts:55-60 | the names `PRAGMA table_info` reports are exactly `id`, `json` and the table's index columns |
| `StoreMigration.MissingColumns` | src/TypedDocumentStore.ts:61 | the missing columns are exactly the declared ones not in the table, at most as many, still distinct |
| `StoreMigration.PlanFollowsTable` | src/TypedDocumentStore.ts:46-70 | with the intended probe: a missing table is created; a present table without auto-migration is left alone; with auto-migration, nothing happens (no transaction) exactly when no declared column is missing, and otherwise exactly the missing columns are added |
| `StoreMigration.CreateTableEffect` | src/TypedDocumentStore.ts:50 | `create table if not exists` leaves an existing table as it is, and otherwise creates an empty table with the index columns |
| `StoreMigration.WithColumns` | src/TypedDocumentStore.ts:67 | `alter table ... add column` appends the columns, never drops one, keeps every id and leaves every document's JSON |
| `StoreMigration.WithColumnsOk` | src/TypedDocumentStore.ts:67 | adding new distinct columns keeps the table's shape |
| `StoreMigration.DistinctAppend` | src/TypedDocumentStore.ts:61-67 | columns missing from the table, added after its own, leave no column name twice |
| `StoreMigration.AddColumnStatements` | src/TypedDocumentStore.ts:67 | one `alter table` per missing column, in declaration order |
| `StoreMigration.ActionOf` | src/TypedDocumentStore.ts:66-69 | the transaction's action issues the migration's statements and throws the engine error that stopped them, if any |
| `StoreMigration.RewriteSucceeds` | src/TypedDocumentStore.ts:212 | re-setting a document whose row exists succeeds once every index column is present |
| `StoreMigration.RewriteOne` | src/TypedDocumentStore.ts:212 | re-setting a stored document keeps every document and makes that row's index cells fresh, leaving the other rows |
| `StoreMigration.WrittenRowFresh` | src/TypedDocumentStore.ts:202-210 | the row a write builds has fresh index cells: each holds the accessor value of the document its JSON decodes to |
| `StoreMigration.RewriteAll` | src/TypedDocumentStore.ts:212 | re-setting the stored documents succeeds, keeps every document and makes every rewritten row fresh |
| `StoreMigration.ScannedDocuments` | src/TypedDocumentStore.ts:126-129 | each document `getAll` returns carries its row's id and encodes back to its row's JSON |
| `StoreMigration.RebuildCommits` | src/TypedDocumentStore.ts:212 | `rebuildIndexes` on a table with every index column succeeds, keeps the ids and documents, and leaves every index cell equal to its accessor applied to the stored document |
| `StoreMigration.MigrationRebuildsIndexes` | src/TypedDocumentStore.ts:53-69 | the add-columns migration succeeds: it appends exactly the missing columns, keeps every id and document, and leaves every index cell fresh; it issues one statement per added column and one per row |
| `StoreMigration.InitAsWrittenNeverMigrates` | src/TypedDocumentStore.ts:47-52 | as written, `init` on a table missing a declared column takes the create-table path, which leaves the table as it was, so every later write fails with "no such column" |
| `StoreMigration.InitMigratesMissingColumn` | src/TypedDocumentStore.ts:53-69 | with the intended probe, a missing declared column is added, and afterwards every write statement can run |
| `LockedDb.Issued` | src/LockedDatabase.ts:33 | the statements an action issues before it throws are a prefix of its statements; all of them when it returns |
| `LockedDb.TranscriptOfCommit` | src/LockedDatabase.ts:58-63 | a successful transaction records BEGIN, then the action's statements in order, then COMMIT, then exactly one flush |
| `LockedDb.TranscriptOfRollback` | src/LockedDatabase.ts:65-67 | a failed transaction records BEGIN, the statements issued before the throw, then ROLLBACK, and no flush |
| `LockedDb.FlushesOfTranscript` | src/LockedDatabase.ts:63 | a transaction flushes once when it commits and never when it rolls back |
| `LockedDb.LockedDatabase.constructor` | src/LockedDatabase.ts:5-10 | a new guard has no transaction, an empty queue, nothing recorded, and the lock free |
| `LockedDb.LockedDatabase.Run` | src/LockedDatabase.ts:12-15 | under the current id the statement reaches the engine; under any other id, including when no transaction is active, it throws a mismatch and sends nothing |
| `LockedDb.LockedDatabase.RunAll` | src/LockedDatabase.ts:33 | under the current id, each of the action's statements is run in order |
| `LockedDb.LockedDatabase.Conclude` | src/LockedDatabase.ts:61-67 | COMMIT and a flush and normal return, or ROLLBACK and the action's own error rethrown |
| `LockedDb.LockedDatabase.Finally` | src/LockedDatabase.ts:68-72 | clears the id, pops the queue, and calls the logging hook once with the item when one is configured |
| `LockedDb.LockedDatabase.RunLocked` | src/LockedDatabase.ts:56-72 | the guarded body gives back the action's outcome; it records the whole transcript, leaves the id cleared and restores the queue |
| `LockedDb.LockedDatabase.Txn` | src/LockedDatabase.ts:49-73 | busy: throws before BEGIN, id and record untouched, the pushed item left in the queue; free: the transcript and outcome above, the id cleared, the queue back to its original contents |
| `LockedDb.LockedDatabase.TxnAsync` | src/LockedDatabase.ts:23-47 | once the lock is held: the same transcript and outcome, the id cleared, the queue restored, the lock released |
| `FlushHelpers.StepKeepsInv` | src/sqljsHelpers.ts:84-101 | each trigger or completion keeps "queued only while running" |
| `FlushHelpers.AtMostOneSaveOutstanding` | src/sqljsHelpers.ts:84-101 | over any run of events, saves started equal saves completed plus the ones outstanding, and the invariant holds at the end |
| `FlushHelpers.FromIdleAtMostOne` | src/sqljsHelpers.ts:84-101 | from idle, at most one save is outstanding at any time |
| `FlushHelpers.TriggersWhileRunning` | src/sqljsHelpers.ts:88-91 | triggers while a save runs start nothing; they only set `queued` |
| `FlushHelpers.TriggersCoalesce` | src/sqljsHelpers.ts:88-99 | any k >= 1 triggers during one save, then its completion, start exactly one follow-up save |
| `FlushHelpers.CompletionWithoutTriggersIdles` | src/sqljsHelpers.ts:94-100 | a completion with nothing queued returns the queue to idle |
| `FlushHelpers.FlushQueue.constructor` | src/sqljsHelpers.ts:84-85 | a new queue is idle, with nothing started |
| `FlushHelpers.FlushQueue.Trigger` | src/sqljsHelpers.ts:87-93 | a trigger starts a save exactly when none is running; otherwise it sets `queued`; the invariant is kept |
| `FlushHelpers.FlushQueue.SaveCompleted` | src/sqljsHelpers.ts:94-100 | a completion starts exactly one new save when one was queued, and otherwise goes idle; the invariant is kept |
| `DocumentStore.TypedDocumentStore.constructor` | src/TypedDocumentStore.ts:22-37 | the index columns are the keys of `indexedFields`; the column list, placeholders, update clause and both insert templates are the ones those columns determine |
| `DocumentStore.TypedDocumentStore.WriteOne` | src/TypedDocumentStore.ts:166 | one `db.run` of the template: a mismatch sends nothing; otherwise the guard records the statement and the table becomes what the engine makes of it |
| `DocumentStore.TypedDocumentStore.WriteEach` | src/TypedDocumentStore.ts:164-172 | inside the current transaction, the loop leaves the table, the outcome and the statements sent as the batch function says |
| `DocumentStore.TypedDocumentStore.WriteStep` | src/TypedDocumentStore.ts:166 | one pass of the `forEach`: the i-th document's statement is recorded; a failure ends the batch with that error after i+1 statements, a success leaves the rest of the batch to run on the new table |
| `DocumentStore.TypedDocumentStore.WriteAll` | src/TypedDocumentStore.ts:164-172 | the `forEach` of the batch writes: outcome, new table, and exactly the statements that reached the engine |
| `DocumentStore.TypedDocumentStore.Set` | src/TypedDocumentStore.ts:159 | `set` of one document, as the batch of one |
| `DocumentStore.TypedDocumentStore.SetMany` | src/TypedDocumentStore.ts:164-167 | `setMany`: an empty list does nothing, otherwise the upsert batch |
| `DocumentStore.TypedDocumentStore.InsertMany` | src/TypedDocumentStore.ts:169-172 | `insertMany`: an empty list does nothing, otherwise the plain-insert batch |
| `DocumentStore.TypedDocumentStore.Update` | src/TypedDocumentStore.ts:177-181 | `get` first, throwing for a missing id before anything is written; then `set` of the action's result |
| `DocumentStore.TypedDocumentStore.Upsert` | src/TypedDocumentStore.ts:186-190 | `tryGet` of the initializer's id, falling back to the initializer; then `set` of the action's result |
| `DocumentStore.TypedDocumentStore.RebuildIndexes` | src/TypedDocumentStore.ts:212 | `setMany(getAll())`; inside the current transaction on a well-formed table it succeeds, keeps the documents and leaves every index cell fresh |
| `DocumentStore.TypedDocumentStore.RunGuarded` | src/TypedDocumentStore.ts:192-194 | a delete statement is sent only under the current id; the engine's verdict decides the new table |
| `DocumentStore.TypedDocumentStore.Remove` | src/TypedDocumentStore.ts:192 | `remove`: the delete by sanitised id, through the guard |
| `DocumentStore.TypedDocumentStore.RemoveMany` | src/TypedDocumentStore.ts:193 | `removeMany`: nothing for no ids, otherwise one delete over the placeholder list |
| `DocumentStore.TypedDocumentStore.RemoveAll` | src/TypedDocumentStore.ts:194 | `removeAll`: `delete from T` through the guard |
| `DocumentStore.TypedDocumentStore.Init` | src/TypedDocumentStore.ts:46-71 | with the intended probe: nothing when no change is due; otherwise one transaction named after the table; a new table when it is missing, the migration when columns are missing, and the table untouched when a statement fails and the transaction rolls back; a well-formed table stays well-formed, every write can run afterwards when auto-migration is on, and the index cells are fresh after a migration |
| `DocumentStore.TypedDocumentStore.BuildQueryObject` | src/TypedDocumentStore.ts:196-200 | the query object maps exactly the index column names, each to itself |

## Left out

- `query(whereSql, params)` (src/TypedDocumentStore.ts:136-140) and the `where` fragment of `queryIndexes`. They evaluate a caller-supplied SQL fragment, and an SQL engine is not part of this model. `QueryIndexes` models only the unfiltered select.
- The `if (!result)` branch in `init` (src/TypedDocumentStore.ts:56-58). It cannot be taken, because `query` always returns an array. The `console.warn` and `console.log` calls are left out as well.
- Reads and the store's state: the reads are functions of the engine's table. Each changes nothing, so the store class carries no read methods.
- Rollback of a caller's transaction: the store's write methods change the engine's table when they run. That ROLLBACK (src/LockedDatabase.ts:66) undoes them is modelled only for `init`'s own transaction.
- Concurrency:
  - the `AsyncLock` queueing and its FIFO order (src/LockedDatabase.ts:28) are not modelled;
  - the lock is the field `busy`, and `TxnAsync` starts once the lock is free;
  - the asynchronous `saveFn` is two events.
- Timing: the fields `waitMs`, `actionMs` and `flushMs` (floating point, from `performance.now()`) are not modelled. The random hex suffix of a transaction id is a parameter.
- Error texts are not modelled; each error is a datatype value. This covers the mismatch message at src/LockedDatabase.ts:13, which prints `this.txnId` twice where the attempted id is meant.
- `JSON.stringify`/`JSON.parse` are abstract. The model relies on what predicate `Encodes` says of a document: parsing gives it back, and an object's text starts with `{`.
- `update` and `upsert` mutate the fetched document in place. The action is modelled as a function from document to document. Nothing stops an action from changing `id`, and, as in the source, the write then goes to the new id.
- Numbers are integers; there are no fractions, NaN or infinities. Loose `== true`/`== false` on a string converts it as trimmed decimal digits after at most one `+` or `-`. Strings with a decimal point, an exponent, a `0x`/`0o`/`0b` prefix, or `Infinity` are taken as numbers equal to neither 0 nor 1, whereas JavaScript reads `"1.0"`, `".0"`, `"1e0"` and `"0x1"` as 0 or 1.
- Failures of the guard's own statements are not modelled: BEGIN, COMMIT, ROLLBACK and `flush()` (src/LockedDatabase.ts:31-39, 57-66) are taken never to throw. In the source, a COMMIT or `flush()` that throws enters the catch and issues ROLLBACK. A BEGIN that throws rolls back a transaction that never started. A ROLLBACK that throws, for instance after SQLite has already rolled back on its own, replaces the action's error with its own.
- SQLite's limits and name rules are not modelled. There is no bound on the number of `?` parameters in the `in (...)` lists of `tryGetMany` and `removeMany` (src/TypedDocumentStore.ts:106, 193). Column names compare case-sensitively, as `Set.has` does in `init` (src/TypedDocumentStore.ts:61), although SQLite treats them case-insensitively: a declared `Name` against a stored `name` would be planned as missing, and adding it would fail.
- SQLite column affinity and type conversion are not modelled. Ids compare as exact values, and deleting by a `null` id matches nothing only because no row is ever stored under `null`.
- `StoreModel.SchemaOk` is assumed: the index names are distinct (they are object keys) and are not `id` or `json`.
- `sqljsHelpers.exec` and `sqljsHelpers.run` (src/sqljsHelpers.ts:55-56) sanitise and then call the engine. They are folded into the reads that use them. `LockedDatabase.exec` (src/LockedDatabase.ts:17) passes through unchanged.
- Not core, and left out:
  - the encrypted persistence `sqljsPersistence` and `cryptoHelpers` (src/sqljsHelpers.ts:10-42, 62-80), which are IndexedDB and WebCrypto glue;
  - `src/Db.ts`;
  - `asInterface` and `isTypedDocumentStore`.

## Findings

| source | as written | input that shows it | evidently intended | confidence | as-written member | corrected member |
|---|---|---|---|---|---|---|
| src/sqljsHelpers.ts:58 | `db.exec(...)` returns an array, so `.values!.length` is the length of `Array.prototype.values`, which is always 0. `isTable` is therefore always false, and `init` always takes the `create table if not exists` path, which leaves an existing table alone. An existing table never gains a newly declared index column, and every later write to it fails with "no such column". | a stored table `T(id, json)` and a store declaring index `name`: `init()` | `isTable` is true when the lookup's result set has a row, so `init` adds the missing columns and rebuilds the indexes | high, not executed | `SqljsHelpers.IsTableAsWritten`, `SqljsHelpers.IsTableAsWrittenMissesTable`, `StoreMigration.PlanAsWritten`, `StoreMigration.InitAsWrittenNeverMigrates` | `SqljsHelpers.IsTable`, `SqljsHelpers.IsTableFindsTable`, `StoreMigration.Plan`, `StoreMigration.PlanFollowsTable`, `StoreMigration.InitMigratesMissingColumn` |
| src/TypedDocumentStore.ts:112 | `id in rowById` is also true for names inherited from `Object.prototype`. For such an id without a row, `rowById[id]` is a function, its `json` is `undefined`, and `JSON.parse` throws, which is reported as a parse error. | `tryGetMany(["toString"])` on a table with no row `toString` | only the object's own keys are looked up, giving `[undefined]` as `tryGet("toString")` does | high, not executed | `StoreReads.TryGetManyAsWritten`, `StoreReads.GetManyAsWritten`, `StoreReads.InheritedNameBreaksTryGetMany`, `StoreReads.InheritedNameBreaksGetMany` | `StoreReads.TryGetMany`, `StoreReads.TryGetManyAgreesWithTryGet`, `StoreReads.TryGetManyAsWrittenAgrees`, `StoreReads.GetMany`, `StoreReads.GetManyAllOrNothing`, `StoreReads.GetManyAsWrittenAgrees` |
