/**
 * `TypedDocumentStore`: a typed document collection kept in one table of the
 * engine. The store holds its configuration and the SQL templates its
 * constructor prepares; every write goes through the `LockedDatabase` guard
 * under a transaction id, and the engine's table changes in place.
 *
 * Each method is specified by the functions of `StoreModel`, `StoreReads`
 * and `StoreMigration`: what the engine's table becomes, what the caller
 * gets back, and what is sent to the guard.
 */
module DocumentStore {
  import opened Wrappers
  import opened JsValues
  import opened Errors
  import opened SqljsHelpers
  import opened SqlTemplates
  import opened LockedDb
  import opened StoreModel
  import opened StoreReads
  import opened StoreMigration

  /** The engine's copy of one table, which the statements change in place. */
  class SqlTable {
    var present: bool
    var columns: seq<string>
    var rows: map<JsValue, Row>

    function Contents(): Table
      reads this
    {
      Table(present, columns, rows)
    }

    constructor (t: Table)
      ensures Contents() == t
    {
      present, columns, rows := t.present, t.columns, t.rows;
    }

    /** A statement's effect on the table, as the engine commits it. */
    method Assign(t: Table)
      modifies this
      ensures Contents() == t
    {
      present, columns, rows := t.present, t.columns, t.rows;
    }
  }

  class TypedDocumentStore<D> {
    const db: LockedDatabase
    const engine: SqlTable
    const schema: Schema<D>
    const tableName: string
    /** `_indexColumns` */
    const indexColumns: seq<string>
    /** `_indexColumnNamesSql` */
    const indexColumnNamesSql: string
    /** `_indexQuestionMarksSql` */
    const indexQuestionMarksSql: string
    /** `_updateParamsSql` */
    const updateParamsSql: string
    const insertSql: string
    const setSql: string

    /** The templates are the ones the schema determines. */
    predicate Valid() {
      && SchemaOk(schema)
      && tableName == schema.tableName
      && indexColumns == IndexColumns(schema)
      && indexColumnNamesSql == IndexColumnNamesSql(indexColumns)
      && indexQuestionMarksSql == IndexQuestionMarksSql(|indexColumns|)
      && updateParamsSql == UpdateParamsSql(indexColumns)
      && insertSql == InsertSql(tableName, indexColumns)
      && setSql == SetSql(tableName, indexColumns)
    }

    /** The constructor: the index columns are the keys of `indexedFields`, and every template is built from them. */
    constructor (db: LockedDatabase, engine: SqlTable, schema: Schema<D>)
      requires SchemaOk(schema)
      ensures Valid()
      ensures this.db == db && this.engine == engine && this.schema == schema
    {
      this.db := db;
      this.engine := engine;
      this.schema := schema;
      var cols := IndexColumns(schema);
      var name := schema.tableName;
      this.tableName := name;
      this.indexColumns := cols;
      this.indexColumnNamesSql := IndexColumnNamesSql(cols);
      this.indexQuestionMarksSql := Repeat(", ?", |cols|);
      this.updateParamsSql := RenderBindings(UpdateBindings(cols));
      this.insertSql := InsertHead(name, cols) + ";";
      this.setSql := InsertHead(name, cols) + " on conflict(" + IdColumn + ") do update set " + JsonColumn + "=?2 "
        + RenderBindings(UpdateBindings(cols)) + " where " + IdColumn + "=?1;";
    }

    // -------------------------------------------------------------------------
    // Writes

    /** One `db.run` of the insert or upsert template, then the engine's verdict on it. */
    method WriteOne(txnId: string, v: D, insert: bool) returns (r: Outcome<Error>)
      requires Valid()
      modifies engine, db`effects
      ensures db.txnId != Some(txnId) ==>
        && r == Fail(TransactionMismatch(db.txnId, txnId))
        && engine.Contents() == old(engine.Contents()) && db.effects == old(db.effects)
      ensures db.txnId == Some(txnId) ==>
        && db.effects == old(db.effects) + [Executed(WriteStatement(schema, v, insert))]
        && (r, engine.Contents()) == Verdict(schema, old(engine.Contents()), v, insert)
    {
      var statement := Statement(if insert then insertSql else setSql, BuildParams(schema, v));
      r := db.Run(txnId, statement);
      if r.Fail? {
        return;
      }
      var next := ApplyWrite(schema, engine.Contents(), v, insert);
      if next.Failure? {
        return Fail(next.error);
      }
      engine.Assign(next.value);
    }

    /**
     * The `forEach` of `setMany` and `insertMany`: one `db.run` per document,
     * in order, until one throws. An empty list sends nothing; under an id
     * that is not the current transaction's, the first `db.run` throws.
     */
    method WriteAll(txnId: string, vs: seq<D>, insert: bool) returns (r: Outcome<Error>)
      requires Valid()
      modifies engine, db`effects
      ensures var b := WriteBatch(schema, old(engine.Contents()), db.txnId, txnId, vs, insert);
        && r == OutcomeOf(b.error)
        && engine.Contents() == b.table
        && db.effects == old(db.effects) + ExecutedAll(WriteStatements(schema, vs, insert)[..b.issued])
    {
      if |vs| == 0 {
        return Pass;
      }
      if db.txnId != Some(txnId) {
        r := WriteOne(txnId, vs[0], insert);
        return;
      }
      r := WriteEach(txnId, vs, insert);
    }

    /** The `forEach` itself, inside the current transaction. */
    method WriteEach(txnId: string, vs: seq<D>, insert: bool) returns (r: Outcome<Error>)
      requires Valid() && db.txnId == Some(txnId)
      modifies engine, db`effects
      ensures var b := ApplyWrites(schema, old(engine.Contents()), vs, insert);
        && r == OutcomeOf(b.error)
        && engine.Contents() == b.table
        && db.effects == old(db.effects) + ExecutedAll(WriteStatements(schema, vs, insert)[..b.issued])
    {
      ghost var b := ApplyWrites(schema, engine.Contents(), vs, insert);
      var i := 0;
      while i < |vs|
        invariant 0 <= i <= |vs|
        invariant b == Later(ApplyWrites(schema, engine.Contents(), vs[i..], insert), i)
        invariant db.effects == old(db.effects) + ExecutedAll(WriteStatements(schema, vs, insert)[..i])
      {
        r := WriteStep(txnId, vs, insert, i, b, old(db.effects));
        if r.Fail? {
          return;
        }
        i := i + 1;
      }
      assert vs[i..] == [];
      r := Pass;
    }

    /** The `forEach`'s i-th step: the write of `vs[i]`, which either ends the batch or leaves the rest to run. */
    method WriteStep(txnId: string, vs: seq<D>, insert: bool, i: nat, ghost b: Batch, ghost before: seq<Effect>)
      returns (r: Outcome<Error>)
      requires Valid() && db.txnId == Some(txnId) && i < |vs|
      requires b == Later(ApplyWrites(schema, engine.Contents(), vs[i..], insert), i)
      requires db.effects == before + ExecutedAll(WriteStatements(schema, vs, insert)[..i])
      modifies engine, db`effects
      ensures db.effects == before + ExecutedAll(WriteStatements(schema, vs, insert)[..i + 1])
      ensures r.Fail? ==> r == OutcomeOf(b.error) && engine.Contents() == b.table && b.issued == i + 1
      ensures r.Pass? ==> b == Later(ApplyWrites(schema, engine.Contents(), vs[i + 1..], insert), i + 1)
    {
      ghost var t := engine.Contents();
      ghost var mid := db.effects;
      r := WriteOne(txnId, vs[i], insert);
      BatchStep(schema, t, vs, insert, i, b, r, engine.Contents());
      WriteEffectsStep(schema, vs, insert, i, before, mid, db.effects);
    }

    /** `set`: insert or update one document. */
    method Set(txnId: string, v: D) returns (r: Outcome<Error>)
      requires Valid()
      modifies engine, db`effects
      ensures var b := WriteBatch(schema, old(engine.Contents()), db.txnId, txnId, [v], false);
        && r == OutcomeOf(b.error)
        && engine.Contents() == b.table
        && db.effects == old(db.effects) + ExecutedAll([WriteStatement(schema, v, false)][..b.issued])
    {
      r := WriteAll(txnId, [v], false);
    }

    /** `setMany`: insert or update each document. */
    method SetMany(txnId: string, vs: seq<D>) returns (r: Outcome<Error>)
      requires Valid()
      modifies engine, db`effects
      ensures var b := WriteBatch(schema, old(engine.Contents()), db.txnId, txnId, vs, false);
        && r == OutcomeOf(b.error)
        && engine.Contents() == b.table
        && db.effects == old(db.effects) + ExecutedAll(WriteStatements(schema, vs, false)[..b.issued])
    {
      r := WriteAll(txnId, vs, false);
    }

    /** `insertMany`: insert each document; an id already stored throws. */
    method InsertMany(txnId: string, vs: seq<D>) returns (r: Outcome<Error>)
      requires Valid()
      modifies engine, db`effects
      ensures var b := WriteBatch(schema, old(engine.Contents()), db.txnId, txnId, vs, true);
        && r == OutcomeOf(b.error)
        && engine.Contents() == b.table
        && db.effects == old(db.effects) + ExecutedAll(WriteStatements(schema, vs, true)[..b.issued])
    {
      r := WriteAll(txnId, vs, true);
    }

    /** `update`: `get` (which throws for a missing id), apply the action, `set`. */
    method Update(txnId: string, id: JsValue, action: D -> D) returns (r: Outcome<Error>)
      requires Valid()
      modifies engine, db`effects
      ensures var t := old(engine.Contents()); var read := UpdateRead(schema, t, id, action);
        var b := UpdateBatch(schema, t, db.txnId, txnId, id, action);
        && r == OutcomeOf(b.error)
        && engine.Contents() == b.table
        && db.effects == old(db.effects) + ExecutedAll(WriteStatements(schema, WritesOf(read), false)[..b.issued])
    {
      match Get(schema, engine.Contents(), id)
      case Failure(e) =>
        return Fail(e);
      case Success(d) =>
        r := WriteAll(txnId, [action(d)], false);
    }

    /** `upsert`: `tryGet` the initializer's id, fall back to the initializer, apply the action, `set`. */
    method Upsert(txnId: string, initializer: D, action: D -> D) returns (r: Outcome<Error>)
      requires Valid()
      modifies engine, db`effects
      ensures var t := old(engine.Contents()); var read := UpsertRead(schema, t, initializer, action);
        var b := UpsertBatch(schema, t, db.txnId, txnId, initializer, action);
        && r == OutcomeOf(b.error)
        && engine.Contents() == b.table
        && db.effects == old(db.effects) + ExecutedAll(WriteStatements(schema, WritesOf(read), false)[..b.issued])
    {
      match TryGet(schema, engine.Contents(), schema.docId(initializer))
      case Failure(e) =>
        return Fail(e);
      case Success(found) =>
        r := WriteAll(txnId, [action(UpsertBase(found, initializer))], false);
    }

    /**
     * `rebuildIndexes`: `getAll`, then `setMany` of what it returned, which
     * recomputes every index cell from the stored documents. Inside the
     * current transaction, on a well-formed table with every index column
     * present, it succeeds, keeps the documents and leaves every cell fresh.
     */
    method RebuildIndexes(txnId: string, scan: seq<JsValue>) returns (r: Outcome<Error>)
      requires Valid() && Enumerates(scan, engine.Contents().rows.Keys)
      modifies engine, db`effects
      ensures var t := old(engine.Contents()); var read := GetAll(schema, t, scan);
        var b := ReadThenWrite(schema, t, db.txnId, txnId, read);
        && r == OutcomeOf(b.error)
        && engine.Contents() == b.table
        && db.effects == old(db.effects) + ExecutedAll(WriteStatements(schema, WritesOf(read), false)[..b.issued])
      ensures var t := old(engine.Contents());
        TableOk(schema, t) && StatementError(schema, t).None? && db.txnId == Some(txnId) ==>
          && r == Pass
          && SameDocuments(t, engine.Contents())
          && IndexesFresh(schema, engine.Contents())
    {
      ghost var t := engine.Contents();
      match GetAll(schema, engine.Contents(), scan)
      case Failure(e) =>
        return Fail(e);
      case Success(docs) =>
        r := SetMany(txnId, docs);
        if TableOk(schema, t) && StatementError(schema, t).None? && db.txnId == Some(txnId) {
          RebuildCommits(schema, t, scan);
        }
    }

    /** One `db.run` whose engine effect is `next`: sent only under the current transaction. */
    method RunGuarded(txnId: string, statement: Statement, next: Result<Table, Error>) returns (r: Outcome<Error>)
      modifies engine, db`effects
      ensures var b := Guarded(old(engine.Contents()), db.txnId, txnId, next);
        && r == OutcomeOf(b.error)
        && engine.Contents() == b.table
        && db.effects == old(db.effects) + ExecutedAll([statement][..b.issued])
    {
      var ok := db.Run(txnId, statement);
      if ok.Fail? {
        return ok;
      }
      match next
      case Failure(e) =>
        r := Fail(e);
      case Success(t1) =>
        engine.Assign(t1);
        r := Pass;
    }

    /** `remove`: delete the row under the sanitised id. */
    method Remove(txnId: string, id: JsValue) returns (r: Outcome<Error>)
      requires Valid()
      modifies engine, db`effects
      ensures var b := RemoveBatch(schema, old(engine.Contents()), db.txnId, txnId, id);
        && r == OutcomeOf(b.error)
        && engine.Contents() == b.table
        && db.effects == old(db.effects) + ExecutedAll([RemoveStatement(schema, id)][..b.issued])
    {
      var statement := Statement(DeleteByIdSql(tableName), SanitizeParams([id]));
      r := RunGuarded(txnId, statement, ApplyDelete(schema, engine.Contents(), SanitizeParams([id])));
    }

    /** `removeMany`: nothing for no ids, else one `delete ... where id in (...)`. */
    method RemoveMany(txnId: string, ids: seq<JsValue>) returns (r: Outcome<Error>)
      requires Valid()
      modifies engine, db`effects
      ensures var b := RemoveManyBatch(schema, old(engine.Contents()), db.txnId, txnId, ids);
        && r == OutcomeOf(b.error)
        && engine.Contents() == b.table
        && db.effects == old(db.effects) + ExecutedAll([RemoveManyStatement(schema, ids)][..b.issued])
    {
      if |ids| == 0 {
        return Pass;
      }
      var statement := Statement(DeleteManySql(tableName, |ids|), SanitizeParams(ids));
      r := RunGuarded(txnId, statement, ApplyDelete(schema, engine.Contents(), SanitizeParams(ids)));
    }

    /** `removeAll`: `delete from T;`. */
    method RemoveAll(txnId: string) returns (r: Outcome<Error>)
      requires Valid()
      modifies engine, db`effects
      ensures var b := RemoveAllBatch(schema, old(engine.Contents()), db.txnId, txnId);
        && r == OutcomeOf(b.error)
        && engine.Contents() == b.table
        && db.effects == old(db.effects) + ExecutedAll([RemoveAllStatement(schema)][..b.issued])
    {
      r := RunGuarded(txnId, Statement(DeleteAllSql(tableName), []), ApplyDeleteAll(schema, engine.Contents()));
    }

    // -------------------------------------------------------------------------
    // init

    /**
     * `init`, with the table probe as intended: on a well-formed table it
     * leaves a well-formed table in which every write statement can be
     * prepared, and after an add-columns migration every index cell is fresh.
     * The transaction's statements go through `txnAsync`; when one of them
     * fails the transaction rolls back and the table is as it was. `scan` is
     * the order in which the engine returns the table's rows.
     */
    method Init(suffix: string, autoMigrate: bool, scan: seq<JsValue>) returns (r: Outcome<Error>)
      requires Valid() && Enumerates(scan, engine.Contents().rows.Keys)
      modifies engine, db
      ensures var t := old(engine.Contents()); var p := Plan(schema, t, autoMigrate);
        if p.NoChange? then
          r == Pass && engine.Contents() == t && db.effects == old(db.effects)
        else
          var m := InitMigration(schema, t, p, scan);
          var d := InitDescription(tableName, p);
          && r == OutcomeOf(m.error)
          && engine.Contents() == (if m.error.None? then m.table else t)
          && db.effects == old(db.effects) + Transcript(ActionOf(m), db.hasHook, QueuedItem(TxnIdFor(d, suffix), d))
          && db.txnId == None && db.queued == old(db.queued)
      ensures TableOk(schema, old(engine.Contents())) ==>
        && TableOk(schema, engine.Contents())
        && (autoMigrate ==> StatementError(schema, engine.Contents()).None?)
        && (Plan(schema, old(engine.Contents()), autoMigrate).AddColumns? ==> IndexesFresh(schema, engine.Contents()))
    {
      var t := engine.Contents();
      var p := Plan(schema, t, autoMigrate);
      PlanFollowsTable(schema, t, autoMigrate);
      if p.NoChange? {
        r := Pass;
        return;
      }
      var m := InitMigration(schema, t, p, scan);
      var d := InitDescription(tableName, p);
      r := db.TxnAsync(d, suffix, ActionOf(m));
      if m.error.None? {
        engine.Assign(m.table);
      }
      if TableOk(schema, t) {
        if p.AddColumns? {
          MigrationRebuildsIndexes(schema, t, p.missing, scan);
        }
      }
    }

    // -------------------------------------------------------------------------
    // _buildQueryObject

    /** `_buildQueryObject`: each index column name mapped to itself, for `where` fragments to refer to. */
    method BuildQueryObject() returns (q: map<string, string>)
      requires Valid()
      ensures q.Keys == Elems(indexColumns)
      ensures forall c :: c in q ==> q[c] == c
    {
      q := map[];
      var i := 0;
      while i < |indexColumns|
        invariant 0 <= i <= |indexColumns|
        invariant q.Keys == Elems(indexColumns[..i])
        invariant forall c :: c in q ==> q[c] == c
      {
        assert Elems(indexColumns[..i + 1]) == Elems(indexColumns[..i]) + {indexColumns[i]} by {
          assert indexColumns[..i + 1] == indexColumns[..i] + [indexColumns[i]];
        }
        q := q[indexColumns[i] := indexColumns[i]];
        i := i + 1;
      }
      assert indexColumns[..i] == indexColumns;
    }
  }
}
