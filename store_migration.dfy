/**
 * `init`: make sure the table exists, and, when index columns were added to
 * the store since the table was created, add them and rebuild every row's
 * index cells (`rebuildIndexes`, which is `setMany` of `getAll`).
 *
 * `init` first asks `isTable`. As written that probe is always false (see
 * `SqljsHelpers.IsTableAsWritten`), so `init` always takes the
 * `create table if not exists` path; `PlanAsWritten` models that, and `Plan`
 * the intended probe.
 */
module StoreMigration {
  import opened Wrappers
  import opened JsValues
  import opened Errors
  import opened SqljsHelpers
  import opened SqlTemplates
  import opened LockedDb
  import opened StoreModel
  import opened StoreReads

  // ---------------------------------------------------------------------------
  // PRAGMA table_info

  /** The columns of `PRAGMA table_info`. */
  const TableInfoColumns := ["cid", "name", "type", "notnull", "dflt_value", "pk"]

  /** The `table_info` row of the column at position `cid`: `id` is the not-null primary key, no column has a type or a default. */
  function TableInfoRow(cid: nat, name: string): seq<JsValue> {
    var key := if cid == 0 then 1 else 0;
    [Num(cid), Str(name), Str(""), Num(key), Null, Num(key)]
  }

  /** What `PRAGMA table_info('T')` returns: one row per column, none when the table does not exist. */
  function TableInfo(t: Table): seq<ResultSet> {
    var all := FixedColumns + t.columns;
    if !t.present then []
    else [ResultSet(TableInfoColumns, seq(|all|, i requires 0 <= i < |all| => TableInfoRow(i, all[i])))]
  }

  /** `x.name` of a record, `undefined` when it has no such field. */
  function NameField(r: Record): JsValue {
    if "name" in r then r["name"] else Undefined
  }

  /** `new Set(result.map(x => x.name))` */
  function ExistingColumns(records: seq<Record>): set<JsValue> {
    set i | 0 <= i < |records| :: NameField(records[i])
  }

  /** `_.filter(_indexColumns, c => !existingColumns.has(c))`, in column order. */
  function MissingColumns(cols: seq<string>, existing: set<JsValue>): (m: seq<string>)
    ensures |m| <= |cols|
    ensures forall c :: c in m <==> c in cols && Str(c) !in existing
    ensures Distinct(cols) ==> Distinct(m)
  {
    if |cols| == 0 then []
    else
      var rest := MissingColumns(cols[1..], existing);
      var head := if Str(cols[0]) !in existing then [cols[0]] else [];
      assert forall c :: c in cols <==> c == cols[0] || c in cols[1..];
      assert Distinct(cols) ==> Distinct(head + rest) by {
        if Distinct(cols) {
          assert Distinct(cols[1..]) by {
            forall a, b | 0 <= a < b < |cols[1..]| ensures cols[1..][a] != cols[1..][b] {
              assert cols[1..][a] == cols[a + 1] && cols[1..][b] == cols[b + 1];
            }
          }
          assert forall j :: 0 <= j < |cols[1..]| ==> cols[1..][j] == cols[j + 1] && cols[j + 1] != cols[0];
          assert cols[0] !in rest;
          DistinctPrepend(head, rest);
        }
      }
      head + rest
  }

  lemma DistinctPrepend(head: seq<string>, rest: seq<string>)
    requires |head| <= 1 && Distinct(rest) && forall c :: c in head ==> c !in rest
    ensures Distinct(head + rest)
  {
    var all := head + rest;
    forall a, b | 0 <= a < b < |all| ensures all[a] != all[b] {
      if a < |head| {
        assert all[a] in head && all[b] == rest[b - |head|];
      } else {
        assert all[a] == rest[a - |head|] && all[b] == rest[b - |head|];
      }
    }
  }

  /**
   * The names `table_info` reports are exactly the table's columns: `id`,
   * `json` and the index columns it has.
   */
  lemma ExistingColumnsOfTableInfo(t: Table)
    requires t.present
    ensures forall c :: Str(c) in ExistingColumns(Query(TableInfo(t))) <==> c in FixedColumns + t.columns
  {
    var all := FixedColumns + t.columns;
    var results := TableInfo(t);
    var recs := Query(results);
    assert Distinct(TableInfoColumns);
    forall i | 0 <= i < |all| ensures NameField(recs[i]) == Str(all[i]) {
      QueryRecordFields(results, i, 1);
    }
    forall c ensures Str(c) in ExistingColumns(recs) <==> c in all {
      if c in all {
        var i :| 0 <= i < |all| && all[i] == c;
        assert NameField(recs[i]) == Str(c);
      }
    }
  }

  // ---------------------------------------------------------------------------
  // What init decides

  datatype InitPlan =
    /** `create table if not exists` with every index column */
    | CreateTable
    /** `alter table ... add column` for each of these, then rebuild the index cells */
    | AddColumns(missing: seq<string>)
    /** nothing to do: no transaction at all */
    | NoChange

  /** The tables the engine holds, as far as this store's table goes. */
  function TablesOf<D>(s: Schema<D>, t: Table): set<string> {
    if t.present then {s.tableName} else {}
  }

  /** `init`'s decision, given what the table probe answered. */
  function PlanInit<D>(s: Schema<D>, t: Table, autoMigrate: bool, tableExists: bool): InitPlan {
    if !tableExists then CreateTable
    else if !autoMigrate then NoChange
    else
      var missing := MissingColumns(IndexColumns(s), ExistingColumns(Query(TableInfo(t))));
      if |missing| == 0 then NoChange else AddColumns(missing)
  }

  /** `init`'s decision as written: the probe always answers "no table". */
  function PlanAsWritten<D>(s: Schema<D>, t: Table, autoMigrate: bool): InitPlan {
    PlanInit(s, t, autoMigrate, IsTableAsWritten(SchemaLookup(TablesOf(s, t), s.tableName)))
  }

  /** `init`'s decision with the probe answering whether the table exists. */
  function Plan<D>(s: Schema<D>, t: Table, autoMigrate: bool): InitPlan {
    PlanInit(s, t, autoMigrate, IsTable(SchemaLookup(TablesOf(s, t), s.tableName)))
  }

  /**
   * With the intended probe, `init` creates an absent table; on an existing
   * table it adds exactly the declared index columns the table lacks, each
   * once, and does nothing when none is missing or migration is off.
   */
  lemma PlanFollowsTable<D>(s: Schema<D>, t: Table, autoMigrate: bool)
    requires SchemaOk(s)
    ensures !t.present ==> Plan(s, t, autoMigrate) == CreateTable
    ensures t.present && !autoMigrate ==> Plan(s, t, autoMigrate) == NoChange
    ensures t.present && autoMigrate ==>
      var p := Plan(s, t, autoMigrate);
      && !p.CreateTable?
      && (p.NoChange? <==> StatementError(s, t).None?)
      && (p.AddColumns? ==> Distinct(p.missing) && forall c :: c in p.missing <==> c in IndexColumns(s) && c !in t.columns)
  {
    IsTableFindsTable(TablesOf(s, t), s.tableName);
    if t.present && autoMigrate {
      var cols := IndexColumns(s);
      var existing := ExistingColumns(Query(TableInfo(t)));
      ExistingColumnsOfTableInfo(t);
      var missing := MissingColumns(cols, existing);
      assert forall c :: c in missing <==> c in cols && c !in t.columns;
      if |missing| == 0 {
        assert forall c :: c in cols ==> c in t.columns;
      } else {
        assert missing[0] in missing;
      }
    }
  }

  // ---------------------------------------------------------------------------
  // What init does

  /** `create table if not exists`: an existing table is left as it is. */
  function CreateTableEffect<D>(s: Schema<D>, t: Table): (t1: Table)
    ensures t.present ==> t1 == t
    ensures !t.present ==> t1.present && t1.columns == IndexColumns(s) && t1.rows == map[]
  {
    if t.present then t else Table(true, IndexColumns(s), map[])
  }

  /** `alter table ... add column c` for each c: new columns come last and hold `null` in every row. */
  function WithColumns(t: Table, missing: seq<string>): (w: Table)
    ensures w.present == t.present && w.columns == t.columns + missing
    ensures w.rows.Keys == t.rows.Keys
    ensures forall k :: k in t.rows ==> w.rows[k].json == t.rows[k].json
  {
    t.(columns := t.columns + missing,
       rows := map k | k in t.rows :: Row(t.rows[k].json, t.rows[k].cells + NullCells(missing)))
  }

  /** Adding columns the table lacks keeps its shape. */
  lemma WithColumnsOk<D>(s: Schema<D>, t: Table, missing: seq<string>)
    requires TableOk(s, t) && t.present && Distinct(missing)
    requires forall c :: c in missing ==> c !in t.columns && c != IdColumn && c != JsonColumn
    ensures TableOk(s, WithColumns(t, missing))
  {
    DistinctAppend(t.columns, missing);
    assert Elems(t.columns + missing) == Elems(t.columns) + Elems(missing);
  }

  /** Two lists without repeats and without common names join into one without repeats. */
  lemma DistinctAppend(a: seq<string>, b: seq<string>)
    requires Distinct(a) && Distinct(b) && forall c :: c in b ==> c !in a
    ensures Distinct(a + b)
  {
    var cols := a + b;
    forall i, j | 0 <= i < j < |cols| ensures cols[i] != cols[j] {
      if j < |a| {
        assert cols[i] == a[i] && cols[j] == a[j];
      } else if i >= |a| {
        assert cols[i] == b[i - |a|] && cols[j] == b[j - |a|];
      } else {
        assert cols[i] in a && cols[j] in b;
      }
    }
  }

  function AddColumnStatements(table: string, missing: seq<string>): (ss: seq<Statement>)
    ensures |ss| == |missing| && forall i :: 0 <= i < |missing| ==> ss[i] == Statement(AddColumnSql(table, missing[i]), [])
  {
    seq(|missing|, i requires 0 <= i < |missing| => Statement(AddColumnSql(table, missing[i]), []))
  }

  /** What `init` does inside its transaction: the statements it runs, the table it commits, the error that aborts it. */
  datatype Migration = Migration(statements: seq<Statement>, table: Table, error: Option<Error>)

  function CreateTableMigration<D>(s: Schema<D>, t: Table): Migration {
    Migration([Statement(CreateTableSql(s.tableName, IndexColumns(s)), [])], CreateTableEffect(s, t), None)
  }

  /**
   * The add-missing-columns transaction: the alters, then `rebuildIndexes`,
   * which reads every document of the widened table (in scan order) and
   * `set`s it again, stopping at the first statement that throws.
   */
  function AddColumnsMigration<D>(s: Schema<D>, t: Table, missing: seq<string>, scan: seq<JsValue>): Migration
    requires SchemaOk(s) && Enumerates(scan, t.rows.Keys)
  {
    var w := WithColumns(t, missing);
    var docs := DocsOf(s, w, scan);
    var b := ApplyWrites(s, w, docs, false);
    Migration(AddColumnStatements(s.tableName, missing) + WriteStatements(s, docs, false)[..b.issued], b.table, b.error)
  }

  /** The description `init` gives its transaction. */
  function InitDescription(tableName: string, p: InitPlan): string {
    if p.CreateTable? then tableName + " create table" else tableName + " add missing columns"
  }

  /** The transaction `init` runs for a plan that changes something. */
  function InitMigration<D>(s: Schema<D>, t: Table, p: InitPlan, scan: seq<JsValue>): Migration
    requires SchemaOk(s) && Enumerates(scan, t.rows.Keys) && !p.NoChange?
  {
    match p
    case CreateTable => CreateTableMigration(s, t)
    case AddColumns(missing) => AddColumnsMigration(s, t, missing, scan)
  }

  /** The transaction's action, as `LockedDatabase` sees it: its statements, then a throw if one failed. */
  function ActionOf(m: Migration): (a: Action)
    ensures Issued(a) == m.statements
    ensures TxnOutcome(a) == OutcomeOf(m.error)
  {
    Action(m.statements, match m.error case None => None case Some(e) => Some(ActionFailure(|m.statements|, e)))
  }

  // ---------------------------------------------------------------------------
  // Why the rebuild works

  /** Every index cell of the row holds the sanitised accessor value on the row's document. */
  predicate FreshRow<D>(s: Schema<D>, r: Row) {
    forall i :: 0 <= i < |s.indexes| ==> CellOf(r, s.indexes[i].name) == SanitizeValue(s.indexes[i].accessor(s.decode(r.json)))
  }

  /** Two tables that differ at most in their cells. */
  predicate SameDocuments(t: Table, t1: Table) {
    && t1.present == t.present && t1.columns == t.columns && t1.rows.Keys == t.rows.Keys
    && forall k :: k in t.rows ==> t1.rows[k].json == t.rows[k].json
  }

  /** Setting a stored document again succeeds: the table and its columns are there, and the id is not null. */
  lemma RewriteSucceeds<D>(s: Schema<D>, cur: Table, v: D)
    requires SchemaOk(s) && StatementError(s, cur).None? && Null !in cur.rows && Key(s, v) in cur.rows
    ensures ApplyWrite(s, cur, v, false).Success?
  {
  }

  /** Setting a stored document again, unchanged, refreshes its index cells and keeps everything else. */
  lemma RewriteOne<D>(s: Schema<D>, cur: Table, v: D, t1: Table)
    requires SchemaOk(s) && Encodes(s, v)
    requires ApplyWrite(s, cur, v, false) == Success(t1)
    requires Key(s, v) in cur.rows && cur.rows[Key(s, v)].json == s.encode(v)
    ensures SameDocuments(cur, t1) && FreshRow(s, t1.rows[Key(s, v)])
    ensures forall k :: k in cur.rows && k != Key(s, v) ==> t1.rows[k] == cur.rows[k]
  {
    WriteChangesOneRow(s, cur, v, false, t1);
    WrittenRowFresh(s, cur, v);
  }

  /** The row a write builds has fresh index cells: they hold the accessor values of the document its JSON encodes. */
  lemma WrittenRowFresh<D>(s: Schema<D>, cur: Table, v: D)
    requires SchemaOk(s) && Encodes(s, v)
    ensures FreshRow(s, WrittenRow(s, cur, v))
  {
    var r := WrittenRow(s, cur, v);
    var ic := IndexCells(s, v);
    forall i | 0 <= i < |s.indexes|
      ensures CellOf(r, s.indexes[i].name) == SanitizeValue(s.indexes[i].accessor(s.decode(r.json)))
    {
      assert s.indexes[i].name in ic;
    }
  }

  /**
   * `setMany` of stored documents, each unchanged and each under its own id,
   * succeeds, keeps every document, refreshes the index cells of those rows
   * and leaves the other rows alone.
   */
  lemma {:induction false} RewriteAll<D>(s: Schema<D>, cur: Table, ds: seq<D>, keys: seq<JsValue>)
    requires SchemaOk(s) && StatementError(s, cur).None? && Null !in cur.rows
    requires |ds| == |keys| && Distinct(keys)
    requires forall j :: 0 <= j < |ds| ==>
      Encodes(s, ds[j]) && Key(s, ds[j]) == keys[j] && keys[j] in cur.rows && cur.rows[keys[j]].json == s.encode(ds[j])
    ensures var b := ApplyWrites(s, cur, ds, false);
      && b.error.None? && SameDocuments(cur, b.table)
      && (forall k :: k in keys ==> FreshRow(s, b.table.rows[k]))
      && (forall k :: k in cur.rows && k !in keys ==> b.table.rows[k] == cur.rows[k])
    decreases |ds|
  {
    if |ds| > 0 {
      var v := ds[0];
      var k := keys[0];
      RewriteSucceeds(s, cur, v);
      var t1 := ApplyWrite(s, cur, v, false).value;
      RewriteOne(s, cur, v, t1);
      assert StatementError(s, t1) == StatementError(s, cur);
      assert forall j :: 0 < j < |keys| ==> keys[j] != k;
      assert forall j :: 0 <= j < |ds| - 1 ==> ds[1..][j] == ds[j + 1] && keys[1..][j] == keys[j + 1];
      assert Distinct(keys[1..]);
      RewriteAll(s, t1, ds[1..], keys[1..]);
      assert forall x :: x in keys <==> x == k || x in keys[1..];
      assert k !in keys[1..];
    }
  }

  /** The documents a scan of a well-formed table reads are stored unchanged under their own ids. */
  lemma ScannedDocuments<D>(s: Schema<D>, w: Table, scan: seq<JsValue>)
    requires TableOk(s, w) && forall k :: k in scan ==> k in w.rows
    ensures var docs := DocsOf(s, w, scan);
      forall j :: 0 <= j < |docs| ==>
        Encodes(s, docs[j]) && Key(s, docs[j]) == scan[j] && scan[j] in w.rows && w.rows[scan[j]].json == s.encode(docs[j])
  {
    var docs := DocsOf(s, w, scan);
    forall j | 0 <= j < |docs|
      ensures Encodes(s, docs[j]) && Key(s, docs[j]) == scan[j] && scan[j] in w.rows && w.rows[scan[j]].json == s.encode(docs[j])
    {
      assert RowHolds(s, scan[j], w.rows[scan[j]]);
    }
  }

  /** Fresh index cells in every row listed by the scan make the whole table fresh. */
  lemma AllRowsFresh<D>(s: Schema<D>, t: Table, scan: seq<JsValue>)
    requires forall k :: k in t.rows ==> k in scan
    requires forall k :: k in scan ==> k in t.rows && FreshRow(s, t.rows[k])
    ensures IndexesFresh(s, t)
  {
    forall k, i | k in t.rows && 0 <= i < |s.indexes|
      ensures CellOf(t.rows[k], s.indexes[i].name) == SanitizeValue(s.indexes[i].accessor(s.decode(t.rows[k].json)))
    {
      assert FreshRow(s, t.rows[k]);
    }
  }

  /**
   * The add-missing-columns transaction of a well-formed table commits: the
   * table gains exactly the missing columns, keeps every document, every
   * row's index cells are fresh, and every write statement can now be
   * prepared. It sends one `alter` per missing column and one `set` per row.
   */
  lemma MigrationRebuildsIndexes<D>(s: Schema<D>, t: Table, missing: seq<string>, scan: seq<JsValue>)
    requires SchemaOk(s) && TableOk(s, t) && t.present && Enumerates(scan, t.rows.Keys)
    requires Distinct(missing) && forall c :: c in missing <==> c in IndexColumns(s) && c !in t.columns
    ensures var m := AddColumnsMigration(s, t, missing, scan);
      && m.error.None?
      && m.table.present && m.table.columns == t.columns + missing
      && m.table.rows.Keys == t.rows.Keys
      && (forall k :: k in t.rows ==> m.table.rows[k].json == t.rows[k].json)
      && IndexesFresh(s, m.table) && TableOk(s, m.table) && StatementError(s, m.table).None?
      && |m.statements| == |missing| + |scan|
  {
    var w := WithColumns(t, missing);
    WithColumnsOk(s, t, missing);
    assert StatementError(s, w).None?;
    RebuildCommits(s, w, scan);
    var docs := DocsOf(s, w, scan);
    var b := ApplyWrites(s, w, docs, false);
    var ss := AddColumnStatements(s.tableName, missing) + WriteStatements(s, docs, false)[..b.issued];
    assert AddColumnsMigration(s, t, missing, scan) == Migration(ss, b.table, b.error);
    assert |ss| == |missing| + |scan|;
    assert b.table.columns == t.columns + missing;
    assert b.table.rows.Keys == t.rows.Keys;
  }

  /** `rebuildIndexes` on a well-formed table whose index columns all exist. */
  lemma RebuildCommits<D>(s: Schema<D>, w: Table, scan: seq<JsValue>)
    requires SchemaOk(s) && TableOk(s, w) && StatementError(s, w).None? && Enumerates(scan, w.rows.Keys)
    ensures var b := ApplyWrites(s, w, DocsOf(s, w, scan), false);
      && b.error.None? && SameDocuments(w, b.table)
      && IndexesFresh(s, b.table) && TableOk(s, b.table) && StatementError(s, b.table).None?
  {
    var docs := DocsOf(s, w, scan);
    ScannedDocuments(s, w, scan);
    RewriteAll(s, w, docs, scan);
    WritesKeepTableOk(s, w, docs, false);
    var b := ApplyWrites(s, w, docs, false);
    AllRowsFresh(s, b.table, scan);
    assert StatementError(s, b.table) == StatementError(s, w);
  }

  /**
   * As written, `init` on an existing table always plans `create table if not
   * exists`, which changes nothing: a declared index column the table lacks
   * is never added, so every later write fails on that column.
   */
  lemma InitAsWrittenNeverMigrates<D>(s: Schema<D>, t: Table, autoMigrate: bool, c: string)
    requires SchemaOk(s) && t.present && c in IndexColumns(s) && c !in t.columns
    ensures PlanAsWritten(s, t, autoMigrate) == CreateTable
    ensures CreateTableMigration(s, t).table == t
    ensures StatementError(s, t).Some? && StatementError(s, t).value.NoSuchColumn?
    ensures forall v: D, insert: bool :: ApplyWrite(s, t, v, insert) == Failure(StatementError(s, t).value)
  {
    IsTableAsWrittenMissesTable(TablesOf(s, t), s.tableName);
  }

  /** With the intended probe the same table is migrated instead, after which writes can be prepared. */
  lemma InitMigratesMissingColumn<D>(s: Schema<D>, t: Table, c: string, scan: seq<JsValue>)
    requires SchemaOk(s) && TableOk(s, t) && t.present && c in IndexColumns(s) && c !in t.columns
    requires Enumerates(scan, t.rows.Keys)
    ensures Plan(s, t, true).AddColumns? && c in Plan(s, t, true).missing
    ensures StatementError(s, AddColumnsMigration(s, t, Plan(s, t, true).missing, scan).table).None?
  {
    PlanFollowsTable(s, t, true);
    MigrationRebuildsIndexes(s, t, Plan(s, t, true).missing, scan);
  }
}
