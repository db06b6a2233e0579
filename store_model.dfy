/**
 * The document store's data model and what its writes do to the engine's
 * table.
 *
 * A store is configured by a `Schema`: the table name, the index columns with
 * their accessors, the document's `id` and the JSON codec. The engine's table
 * is a `Table` value: whether it exists, its index columns in the order they
 * were created, and its rows keyed by the stored id. Each write statement the
 * store builds (`set`, `insertMany`, the deletes) becomes a function from the
 * table before the statement to the table after it, or to the error the
 * engine raises.
 */
module StoreModel {
  import opened Wrappers
  import opened JsValues
  import opened Errors
  import opened SqljsHelpers
  import opened SqlTemplates
  import opened LockedDb

  /** One entry of `indexedFields`: a column name and the accessor that fills it. */
  datatype IndexSpec<-D> = IndexSpec(name: string, accessor: D -> JsValue)

  /**
   * A store's configuration. `docId` is `value.id`; `encode` is
   * `JSON.stringify` and `decode` is `JSON.parse`.
   */
  datatype Schema<!D> = Schema(
    tableName: string,
    indexes: seq<IndexSpec<D>>,
    docId: D -> JsValue,
    encode: D -> string,
    decode: string -> D)

  function Elems<T>(s: seq<T>): set<T> {
    set x | x in s
  }

  /** `_indexColumns`: the keys of `indexedFields`, in order. */
  function IndexColumns<D>(s: Schema<D>): (cols: seq<string>)
    ensures |cols| == |s.indexes|
    ensures forall i :: 0 <= i < |cols| ==> cols[i] == s.indexes[i].name
  {
    seq(|s.indexes|, i requires 0 <= i < |s.indexes| => s.indexes[i].name)
  }

  /** Index column names that can sit next to `id` and `json` in one table. */
  predicate ColumnsOk(cols: seq<string>) {
    Distinct(cols) && IdColumn !in cols && JsonColumn !in cols
  }

  /**
   * What the JSON codec guarantees for a document, which is an object:
   * parsing its text gives it back, and the text starts with `{`.
   */
  predicate Encodes<D(==)>(s: Schema<D>, v: D) {
    s.decode(s.encode(v)) == v && |s.encode(v)| > 0 && s.encode(v)[0] == '{'
  }

  predicate SchemaOk<D>(s: Schema<D>) {
    ColumnsOk(IndexColumns(s))
  }

  // ---------------------------------------------------------------------------
  // The engine's table

  /** A stored row: the `json` column and the other columns' cells. */
  datatype Row = Row(json: string, cells: map<string, JsValue>)

  /** The engine's table: whether it exists, its columns after `id` and `json`, its rows by id. */
  datatype Table = Table(present: bool, columns: seq<string>, rows: map<JsValue, Row>)

  const NoTable := Table(false, [], map[])

  /** A cell as a `select` of that column reads it (each row holds every column of its table). */
  function CellOf(r: Row, column: string): JsValue {
    if column in r.cells then r.cells[column] else Null
  }

  /** The id a document is stored under: `value.id` as `sanitizeParams` binds it. */
  function Key<D>(s: Schema<D>, v: D): JsValue {
    SanitizeValue(s.docId(v))
  }

  /** A row was written by this store: its json parses to a document with the row's id. */
  predicate RowHolds<D>(s: Schema<D>, k: JsValue, r: Row) {
    Key(s, s.decode(r.json)) == k && s.encode(s.decode(r.json)) == r.json && |r.json| > 0 && r.json[0] == '{'
  }

  /** The shape every table the store works on keeps. */
  predicate TableOk<D>(s: Schema<D>, t: Table) {
    && (!t.present ==> t == NoTable)
    && ColumnsOk(t.columns)
    && Null !in t.rows
    && (forall k :: k in t.rows ==> t.rows[k].cells.Keys == Elems(t.columns))
    && (forall k :: k in t.rows ==> RowHolds(s, k, t.rows[k]))
  }

  /** Every row's index cells hold what the accessors give for its document. */
  predicate IndexesFresh<D>(s: Schema<D>, t: Table) {
    forall k, i :: k in t.rows && 0 <= i < |s.indexes| ==>
      CellOf(t.rows[k], s.indexes[i].name) == SanitizeValue(s.indexes[i].accessor(s.decode(t.rows[k].json)))
  }

  // ---------------------------------------------------------------------------
  // _indexValues and _buildParams

  /** `_indexValues`: each accessor applied to the document, in column order. */
  function IndexValues<D>(s: Schema<D>, v: D): (vs: seq<JsValue>)
    ensures |vs| == |s.indexes|
    ensures forall i :: 0 <= i < |vs| ==> vs[i] == s.indexes[i].accessor(v)
  {
    seq(|s.indexes|, i requires 0 <= i < |s.indexes| => s.indexes[i].accessor(v))
  }

  /** `_buildParams`: id, json text and index values, sanitised. */
  function BuildParams<D>(s: Schema<D>, v: D): seq<JsValue> {
    SanitizeParams([s.docId(v), Str(s.encode(v))] + IndexValues(s, v))
  }

  /**
   * The parameter list matches the statement's columns: `?1` is the stored id,
   * `?2` the document's JSON text unchanged, and `?(i+3)` index i's sanitised
   * value; nothing undefined or boolean reaches the engine.
   */
  lemma BuildParamsLayout<D>(s: Schema<D>, v: D)
    requires Encodes(s, v)
    ensures var p := BuildParams(s, v);
      && |p| == |FixedColumns| + |s.indexes|
      && p[0] == Key(s, v)
      && p[1] == Str(s.encode(v))
      && (forall i :: 0 <= i < |s.indexes| ==> p[i + 2] == SanitizeValue(s.indexes[i].accessor(v)))
      && (forall j :: 0 <= j < |p| ==> IsSqlValue(p[j]))
  {
    var raw := [s.docId(v), Str(s.encode(v))] + IndexValues(s, v);
    var text := s.encode(v);
    NonNumericText(text);
    assert raw[1] == Str(text);
    assert forall i :: 0 <= i < |s.indexes| ==> raw[i + 2] == s.indexes[i].accessor(v);
  }

  /** The cells a write sets: each listed column takes the value at its position. */
  function Assignments(cols: seq<string>, vals: seq<JsValue>): (m: map<string, JsValue>)
    requires |cols| == |vals| && Distinct(cols)
    ensures m.Keys == Elems(cols)
    ensures forall i :: 0 <= i < |cols| ==> m[cols[i]] == vals[i]
  {
    map i | 0 <= i < |cols| :: cols[i] := vals[i]
  }

  /**
   * The index cells a `set` or an insert writes: index column i takes the
   * sanitised accessor value, which is parameter i + 3 of `BuildParams`.
   */
  function IndexCells<D>(s: Schema<D>, v: D): (m: map<string, JsValue>)
    requires ColumnsOk(IndexColumns(s))
    ensures m.Keys == Elems(IndexColumns(s))
    ensures forall i :: 0 <= i < |s.indexes| ==> m[s.indexes[i].name] == SanitizeValue(s.indexes[i].accessor(v))
  {
    var vals := seq(|s.indexes|, i requires 0 <= i < |s.indexes| => SanitizeValue(s.indexes[i].accessor(v)));
    Assignments(IndexColumns(s), vals)
  }

  /** `null` in every listed column: what an insert leaves in columns it does not name. */
  function NullCells(cols: seq<string>): (m: map<string, JsValue>)
    ensures m.Keys == Elems(cols)
    ensures forall c :: c in m ==> m[c] == Null
  {
    map c | c in cols :: Null
  }

  // ---------------------------------------------------------------------------
  // The engine running one write

  /** The first index column that the table lacks, if any. */
  function FirstAbsent(cols: seq<string>, have: seq<string>): (r: Option<string>)
    ensures r.None? <==> forall c :: c in cols ==> c in have
    ensures r.Some? ==> r.value in cols && r.value !in have
  {
    if |cols| == 0 then None
    else if cols[0] !in have then Some(cols[0])
    else
      var r := FirstAbsent(cols[1..], have);
      assert forall c :: c in cols ==> c == cols[0] || c in cols[1..];
      r
  }

  /** Why the engine refuses to prepare a statement naming the table and its index columns. */
  function StatementError<D>(s: Schema<D>, t: Table): (e: Option<Error>)
    ensures e.None? <==> t.present && forall c :: c in IndexColumns(s) ==> c in t.columns
  {
    if !t.present then Some(NoSuchTable(s.tableName))
    else
      match FirstAbsent(IndexColumns(s), t.columns)
      case Some(c) => Some(NoSuchColumn(s.tableName, c))
      case None => None
  }

  /**
   * The row a write leaves under the document's id: its json, its index cells,
   * and, for a row already there, the other cells as they were (the conflict
   * path only updates json and the index columns); a new row has `null` in
   * every column the statement does not name.
   */
  function WrittenRow<D>(s: Schema<D>, t: Table, v: D): Row
    requires ColumnsOk(IndexColumns(s))
  {
    var k := Key(s, v);
    var base := if k in t.rows then t.rows[k].cells else NullCells(t.columns);
    Row(s.encode(v), base + IndexCells(s, v))
  }

  /**
   * The engine running the `set` statement (`insert` false) or the
   * `insertSql` statement (`insert` true) for one document.
   */
  function ApplyWrite<D>(s: Schema<D>, t: Table, v: D, insert: bool): Result<Table, Error>
    requires ColumnsOk(IndexColumns(s))
  {
    match StatementError(s, t)
    case Some(e) => Failure(e)
    case None =>
      var k := Key(s, v);
      if k == Null then Failure(NotNullViolation(s.tableName))
      else if insert && k in t.rows then Failure(PrimaryKeyViolation(s.tableName, k))
      else Success(t.(rows := t.rows[k := WrittenRow(s, t, v)]))
  }

  /** What one write hands back and the table it leaves: a statement the engine rejects changes nothing. */
  function Verdict<D>(s: Schema<D>, t: Table, v: D, insert: bool): (Outcome<Error>, Table)
    requires ColumnsOk(IndexColumns(s))
  {
    match ApplyWrite(s, t, v, insert)
    case Failure(e) => (Fail(e), t)
    case Success(t1) => (Pass, t1)
  }

  /** The statement a write hands to `db.run`. */
  function WriteStatement<D>(s: Schema<D>, v: D, insert: bool): Statement {
    var cols := IndexColumns(s);
    Statement(if insert then InsertSql(s.tableName, cols) else SetSql(s.tableName, cols), BuildParams(s, v))
  }

  function WriteStatements<D>(s: Schema<D>, vs: seq<D>, insert: bool): (ss: seq<Statement>)
    ensures |ss| == |vs| && forall i :: 0 <= i < |vs| ==> ss[i] == WriteStatement(s, vs[i], insert)
  {
    seq(|vs|, i requires 0 <= i < |vs| => WriteStatement(s, vs[i], insert))
  }

  /** What the guard records once the write at position i has run after the first i. */
  lemma WriteEffectsStep<D>(s: Schema<D>, vs: seq<D>, insert: bool, i: nat, before: seq<Effect>, mid: seq<Effect>, after: seq<Effect>)
    requires i < |vs|
    requires mid == before + ExecutedAll(WriteStatements(s, vs, insert)[..i])
    requires after == mid + [Executed(WriteStatement(s, vs[i], insert))]
    ensures after == before + ExecutedAll(WriteStatements(s, vs, insert)[..i + 1])
  {
    var ws := WriteStatements(s, vs, insert);
    ExecutedStep(before, ws, i, mid, after);
  }

  // ---------------------------------------------------------------------------
  // Batches

  /** The table after a run of statements, how many reached the engine, and the error that stopped them. */
  datatype Batch = Batch(table: Table, issued: nat, error: Option<Error>)

  function Later(b: Batch, n: nat): Batch {
    b.(issued := b.issued + n)
  }

  /** The `forEach` of `setMany`/`insertMany`: one statement per document until one throws. */
  function ApplyWrites<D>(s: Schema<D>, t: Table, vs: seq<D>, insert: bool): (b: Batch)
    requires ColumnsOk(IndexColumns(s))
    ensures b.issued <= |vs|
    ensures b.error.None? ==> b.issued == |vs|
    ensures b.error.Some? ==> b.issued > 0
    decreases |vs|
  {
    if |vs| == 0 then Batch(t, 0, None)
    else
      match ApplyWrite(s, t, vs[0], insert)
      case Failure(e) => Batch(t, 1, Some(e))
      case Success(t1) => Later(ApplyWrites(s, t1, vs[1..], insert), 1)
  }

  /** Running the batch from position i: the write at i, then the rest unless it failed. */
  lemma ApplyWritesStep<D>(s: Schema<D>, t: Table, vs: seq<D>, insert: bool, i: nat)
    requires ColumnsOk(IndexColumns(s)) && i < |vs|
    ensures ApplyWrites(s, t, vs[i..], insert) ==
      match ApplyWrite(s, t, vs[i], insert)
      case Failure(e) => Batch(t, 1, Some(e))
      case Success(t1) => Later(ApplyWrites(s, t1, vs[i + 1..], insert), 1)
  {
    assert vs[i..][0] == vs[i] && vs[i..][1..] == vs[i + 1..];
  }

  /** One write of the batch at position i: a failure ends the batch there; a success leaves the rest to run. */
  lemma BatchStep<D>(s: Schema<D>, t: Table, vs: seq<D>, insert: bool, i: nat, b: Batch, r: Outcome<Error>, t': Table)
    requires ColumnsOk(IndexColumns(s)) && i < |vs|
    requires b == Later(ApplyWrites(s, t, vs[i..], insert), i)
    requires (r, t') == Verdict(s, t, vs[i], insert)
    ensures r.Fail? ==> r == OutcomeOf(b.error) && t' == b.table && b.issued == i + 1
    ensures r.Pass? ==> b == Later(ApplyWrites(s, t', vs[i + 1..], insert), i + 1)
  {
    ApplyWritesStep(s, t, vs, insert, i);
  }

  /**
   * `set`, `setMany` and `insertMany` together: an empty batch does nothing;
   * a batch under a transaction id that is not the current one throws at its
   * first statement and sends nothing.
   */
  function WriteBatch<D>(s: Schema<D>, t: Table, current: Option<string>, txnId: string, vs: seq<D>, insert: bool): (b: Batch)
    requires ColumnsOk(IndexColumns(s))
    ensures |vs| == 0 ==> b == Batch(t, 0, None)
    ensures |vs| > 0 && current != Some(txnId) ==> b == Batch(t, 0, Some(TransactionMismatch(current, txnId)))
  {
    if |vs| == 0 then Batch(t, 0, None)
    else if current != Some(txnId) then Batch(t, 0, Some(TransactionMismatch(current, txnId)))
    else ApplyWrites(s, t, vs, insert)
  }

  function OutcomeOf(e: Option<Error>): Outcome<Error> {
    match e
    case None => Pass
    case Some(err) => Fail(err)
  }

  // ---------------------------------------------------------------------------
  // Deletes

  /** `delete ... where id = ?` / `where id in (...)`: the rows whose id is one of the bound keys go. */
  function ApplyDelete<D>(s: Schema<D>, t: Table, keys: seq<JsValue>): (r: Result<Table, Error>)
    ensures !t.present ==> r == Failure(NoSuchTable(s.tableName))
  {
    if !t.present then Failure(NoSuchTable(s.tableName))
    else Success(t.(rows := t.rows - Elems(keys)))
  }

  /** `delete from T;` */
  function ApplyDeleteAll<D>(s: Schema<D>, t: Table): (r: Result<Table, Error>)
    ensures !t.present ==> r == Failure(NoSuchTable(s.tableName))
  {
    if !t.present then Failure(NoSuchTable(s.tableName))
    else Success(t.(rows := map[]))
  }

  /** A single statement sent through `db.run`: refused on a transaction mismatch, else the engine's result. */
  function Guarded(t: Table, current: Option<string>, txnId: string, r: Result<Table, Error>): (b: Batch)
    ensures current != Some(txnId) ==> b == Batch(t, 0, Some(TransactionMismatch(current, txnId)))
  {
    if current != Some(txnId) then Batch(t, 0, Some(TransactionMismatch(current, txnId)))
    else
      match r
      case Failure(e) => Batch(t, 1, Some(e))
      case Success(t1) => Batch(t1, 1, None)
  }

  function RemoveStatement<D>(s: Schema<D>, id: JsValue): Statement {
    Statement(DeleteByIdSql(s.tableName), SanitizeParams([id]))
  }

  function RemoveManyStatement<D>(s: Schema<D>, ids: seq<JsValue>): Statement {
    Statement(DeleteManySql(s.tableName, |ids|), SanitizeParams(ids))
  }

  function RemoveAllStatement<D>(s: Schema<D>): Statement {
    Statement(DeleteAllSql(s.tableName), [])
  }

  /** `remove` */
  function RemoveBatch<D>(s: Schema<D>, t: Table, current: Option<string>, txnId: string, id: JsValue): Batch {
    Guarded(t, current, txnId, ApplyDelete(s, t, SanitizeParams([id])))
  }

  /** `removeMany`: nothing at all for no ids. */
  function RemoveManyBatch<D>(s: Schema<D>, t: Table, current: Option<string>, txnId: string, ids: seq<JsValue>): (b: Batch)
    ensures |ids| == 0 ==> b == Batch(t, 0, None)
  {
    if |ids| == 0 then Batch(t, 0, None) else Guarded(t, current, txnId, ApplyDelete(s, t, SanitizeParams(ids)))
  }

  /** `removeAll` */
  function RemoveAllBatch<D>(s: Schema<D>, t: Table, current: Option<string>, txnId: string): Batch {
    Guarded(t, current, txnId, ApplyDeleteAll(s, t))
  }

  // ---------------------------------------------------------------------------
  // What the writes keep and change

  /** A write that succeeds passed the engine's checks and stored `WrittenRow` under the document's id. */
  lemma WriteSucceeded<D>(s: Schema<D>, t: Table, v: D, insert: bool)
    requires SchemaOk(s) && ApplyWrite(s, t, v, insert).Success?
    ensures StatementError(s, t).None? && Key(s, v) != Null
    ensures !insert || Key(s, v) !in t.rows
    ensures ApplyWrite(s, t, v, insert).value == t.(rows := t.rows[Key(s, v) := WrittenRow(s, t, v)])
  {
  }

  /**
   * The row a write stores holds the document's JSON text and exactly the
   * table's columns: the index columns
   * hold the sanitised accessor values, every other column what it held
   * before, or `null` in a new row.
   */
  lemma WrittenRowCells<D>(s: Schema<D>, t: Table, v: D)
    requires SchemaOk(s)
    requires forall c :: c in IndexColumns(s) ==> c in t.columns
    requires Key(s, v) in t.rows ==> t.rows[Key(s, v)].cells.Keys == Elems(t.columns)
    ensures var r := WrittenRow(s, t, v); var k := Key(s, v);
      && r.json == s.encode(v)
      && r.cells.Keys == Elems(t.columns)
      && (forall i :: 0 <= i < |s.indexes| ==> r.cells[s.indexes[i].name] == SanitizeValue(s.indexes[i].accessor(v)))
      && (forall c :: c in t.columns && c !in IndexColumns(s) ==>
            r.cells[c] == if k in t.rows then t.rows[k].cells[c] else Null)
  {
    var cols := IndexColumns(s);
    var k := Key(s, v);
    var base := if k in t.rows then t.rows[k].cells else NullCells(t.columns);
    var ic := IndexCells(s, v);
    var r := WrittenRow(s, t, v);
    assert r.cells == base + ic;
    assert base.Keys == Elems(t.columns);
    assert ic.Keys <= Elems(t.columns) by {
      forall c | c in ic ensures c in Elems(t.columns) {
        assert c in cols;
      }
    }
    forall i | 0 <= i < |s.indexes| ensures r.cells[s.indexes[i].name] == SanitizeValue(s.indexes[i].accessor(v)) {
      assert s.indexes[i].name in ic;
    }
    forall c | c in t.columns && c !in cols ensures r.cells[c] == base[c] {
      assert c !in ic;
    }
  }

  /**
   * A successful write changes one row, the one under the document's id, to
   * `WrittenRow` (see `WrittenRowCells`), and leaves every other row as it
   * was.
   */
  lemma WriteChangesOneRow<D>(s: Schema<D>, t: Table, v: D, insert: bool, t1: Table)
    requires SchemaOk(s)
    requires ApplyWrite(s, t, v, insert) == Success(t1)
    ensures var k := Key(s, v);
      && t1.present && t1.columns == t.columns
      && k != Null
      && t1.rows.Keys == t.rows.Keys + {k}
      && (forall k' :: k' in t.rows && k' != k ==> t1.rows[k'] == t.rows[k'])
      && t1.rows[k] == WrittenRow(s, t, v)
  {
    WriteSucceeded(s, t, v, insert);
  }

  /** A successful write keeps the table's shape. */
  lemma WriteKeepsTableOk<D>(s: Schema<D>, t: Table, v: D, insert: bool)
    requires SchemaOk(s) && TableOk(s, t) && Encodes(s, v)
    requires ApplyWrite(s, t, v, insert).Success?
    ensures TableOk(s, ApplyWrite(s, t, v, insert).value)
  {
    WriteSucceeded(s, t, v, insert);
    WrittenRowCells(s, t, v);
    var k := Key(s, v);
    assert RowHolds(s, k, WrittenRow(s, t, v));
  }

  /** A successful write keeps every row's index cells in step with its document. */
  lemma WriteKeepsIndexesFresh<D>(s: Schema<D>, t: Table, v: D, insert: bool, t1: Table)
    requires SchemaOk(s) && IndexesFresh(s, t) && Encodes(s, v)
    requires ApplyWrite(s, t, v, insert) == Success(t1)
    ensures IndexesFresh(s, t1)
  {
    WriteSucceeded(s, t, v, insert);
    var r := WrittenRow(s, t, v);
    var ic := IndexCells(s, v);
    forall i | 0 <= i < |s.indexes|
      ensures CellOf(r, s.indexes[i].name) == SanitizeValue(s.indexes[i].accessor(s.decode(r.json)))
    {
      assert s.indexes[i].name in ic;
    }
    FreshRowKeepsIndexesFresh(s, t, Key(s, v), r);
  }

  /** Replacing one row by a row whose index cells are fresh keeps the table's index cells fresh. */
  lemma FreshRowKeepsIndexesFresh<D>(s: Schema<D>, t: Table, k: JsValue, r: Row)
    requires IndexesFresh(s, t)
    requires forall i :: 0 <= i < |s.indexes| ==>
      CellOf(r, s.indexes[i].name) == SanitizeValue(s.indexes[i].accessor(s.decode(r.json)))
    ensures IndexesFresh(s, t.(rows := t.rows[k := r]))
  {
  }

  /** Every batch of writes keeps the table's shape, whether or not it stops early. */
  lemma {:induction false} WritesKeepTableOk<D>(s: Schema<D>, t: Table, vs: seq<D>, insert: bool)
    requires SchemaOk(s) && TableOk(s, t) && forall i :: 0 <= i < |vs| ==> Encodes(s, vs[i])
    ensures TableOk(s, ApplyWrites(s, t, vs, insert).table)
    decreases |vs|
  {
    if |vs| > 0 {
      match ApplyWrite(s, t, vs[0], insert)
      case Failure(_) =>
      case Success(t1) =>
        WriteKeepsTableOk(s, t, vs[0], insert);
        WritesKeepTableOk(s, t1, vs[1..], insert);
    }
  }

  /** Overriding with the same cells a second time adds nothing. */
  lemma OverrideTwice<K, V>(base: map<K, V>, m: map<K, V>)
    ensures base + m + m == base + m
  {
  }

  /** After a write, writing the same document again would build the row already there. */
  lemma RewriteBuildsSameRow<D>(s: Schema<D>, t: Table, v: D, t1: Table)
    requires SchemaOk(s)
    requires ApplyWrite(s, t, v, false) == Success(t1)
    ensures Key(s, v) in t1.rows && WrittenRow(s, t1, v) == t1.rows[Key(s, v)]
  {
    WriteChangesOneRow(s, t, v, false, t1);
    var k := Key(s, v);
    var base := if k in t.rows then t.rows[k].cells else NullCells(t.columns);
    OverrideTwice(base, IndexCells(s, v));
  }

  /** Setting the same document again changes nothing: `set` is idempotent. */
  lemma SetIdempotent<D>(s: Schema<D>, t: Table, v: D, t1: Table)
    requires SchemaOk(s)
    requires ApplyWrite(s, t, v, false) == Success(t1)
    ensures ApplyWrite(s, t1, v, false) == Success(t1)
  {
    WriteChangesOneRow(s, t, v, false, t1);
    RewriteBuildsSameRow(s, t, v, t1);
    assert StatementError(s, t1) == StatementError(s, t);
    RewriteIsNoOp(s, t1, v);
  }

  /** The upsert of a document whose row already holds what it would write leaves the table as it is. */
  lemma RewriteIsNoOp<D>(s: Schema<D>, t: Table, v: D)
    requires ColumnsOk(IndexColumns(s))
    requires StatementError(s, t).None? && Key(s, v) != Null
    requires Key(s, v) in t.rows && WrittenRow(s, t, v) == t.rows[Key(s, v)]
    ensures ApplyWrite(s, t, v, false) == Success(t)
  {
    assert t.rows[Key(s, v) := WrittenRow(s, t, v)] == t.rows;
  }

  /** An insert under an id that is already stored fails with the primary-key error. */
  lemma InsertOfStoredIdFails<D>(s: Schema<D>, t: Table, v: D)
    requires ColumnsOk(IndexColumns(s))
    requires StatementError(s, t).None? && Key(s, v) in t.rows && Key(s, v) != Null
    ensures ApplyWrite(s, t, v, true) == Failure(PrimaryKeyViolation(s.tableName, Key(s, v)))
  {
  }

  /**
   * `insertMany` never overwrites: however far the batch gets, every row that
   * was stored before is still there, unchanged.
   */
  lemma {:induction false} InsertsKeepStoredRows<D>(s: Schema<D>, t: Table, vs: seq<D>)
    requires ColumnsOk(IndexColumns(s))
    ensures var t1 := ApplyWrites(s, t, vs, true).table;
      forall k :: k in t.rows ==> k in t1.rows && t1.rows[k] == t.rows[k]
    decreases |vs|
  {
    if |vs| > 0 {
      match ApplyWrite(s, t, vs[0], true)
      case Failure(_) =>
      case Success(t1) =>
        InsertsKeepStoredRows(s, t1, vs[1..]);
    }
  }

  /** Deleting keeps the table's shape. */
  lemma DeleteKeepsTableOk<D>(s: Schema<D>, t: Table, keys: seq<JsValue>)
    requires TableOk(s, t)
    ensures ApplyDelete(s, t, keys).Success? ==> TableOk(s, ApplyDelete(s, t, keys).value)
    ensures ApplyDeleteAll(s, t).Success? ==> TableOk(s, ApplyDeleteAll(s, t).value)
  {
  }

  /**
   * A delete removes exactly the rows whose id is one of the sanitised ids,
   * and leaves every other row as it was.
   */
  lemma DeleteRemovesExactly<D>(s: Schema<D>, t: Table, ids: seq<JsValue>)
    requires t.present
    ensures var t1 := ApplyDelete(s, t, SanitizeParams(ids)).value;
      && (forall k :: k in t1.rows <==> k in t.rows && forall i :: 0 <= i < |ids| ==> k != SanitizeValue(ids[i]))
      && (forall k :: k in t1.rows ==> t1.rows[k] == t.rows[k])
  {
    var keys := SanitizeParams(ids);
    forall k ensures k in Elems(keys) <==> exists i :: 0 <= i < |ids| && k == SanitizeValue(ids[i]) {
      if k in Elems(keys) {
        var j :| 0 <= j < |keys| && keys[j] == k;
        assert k == SanitizeValue(ids[j]);
      }
    }
  }
}
