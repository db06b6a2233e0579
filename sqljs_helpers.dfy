/**
 * The helpers in `sqljsHelpers` that sit between the document store and the
 * sql.js engine: parameter sanitising, flattening a result set into records,
 * and the table-existence probe.
 */
module SqljsHelpers {
  import opened JsValues

  // ---------------------------------------------------------------------------
  // sanitizeParams

  /**
   * One parameter as `sanitizeParams` maps it:
   * `v == undefined ? null : v == true ? 1 : v == false ? 0 : v`.
   */
  function SanitizeValue(v: JsValue): (r: JsValue)
    ensures IsSqlValue(r)
  {
    if LooselyNullish(v) then Null
    else if LooselyTrue(v) then Num(1)
    else if LooselyFalse(v) then Num(0)
    else v
  }

  /** `sanitizeParams`: the element-wise map of `SanitizeValue`. */
  function SanitizeParams(ps: seq<JsValue>): (r: seq<JsValue>)
    ensures |r| == |ps|
    ensures forall i :: 0 <= i < |ps| ==> r[i] == SanitizeValue(ps[i])
  {
    if |ps| == 0 then [] else [SanitizeValue(ps[0])] + SanitizeParams(ps[1..])
  }

  /** The four cases of the mapping, element by element, and nothing undefined or boolean left. */
  lemma SanitizeParamsCases(ps: seq<JsValue>, i: nat)
    requires i < |ps|
    ensures LooselyNullish(ps[i]) ==> SanitizeParams(ps)[i] == Null
    ensures !LooselyNullish(ps[i]) && LooselyTrue(ps[i]) ==> SanitizeParams(ps)[i] == Num(1)
    ensures !LooselyNullish(ps[i]) && !LooselyTrue(ps[i]) && LooselyFalse(ps[i]) ==> SanitizeParams(ps)[i] == Num(0)
    ensures !LooselyNullish(ps[i]) && !LooselyTrue(ps[i]) && !LooselyFalse(ps[i]) ==> SanitizeParams(ps)[i] == ps[i]
    ensures !SanitizeParams(ps)[i].Undefined? && !SanitizeParams(ps)[i].Bool?
  {
  }

  /** Sanitising twice is sanitising once. */
  lemma {:induction false} SanitizeParamsIdempotent(ps: seq<JsValue>)
    ensures SanitizeParams(SanitizeParams(ps)) == SanitizeParams(ps)
  {
    var once := SanitizeParams(ps);
    var twice := SanitizeParams(once);
    forall i | 0 <= i < |ps| ensures twice[i] == once[i] {
      var v := ps[i];
      if !LooselyNullish(v) && !LooselyTrue(v) && !LooselyFalse(v) {
        assert once[i] == v;
      }
    }
  }

  // ---------------------------------------------------------------------------
  // query

  /** One result set of `Database.exec`: column names and rows of values. */
  datatype ResultSet = ResultSet(columns: seq<string>, values: seq<seq<JsValue>>)

  /** A row flattened into an object: column name to value. */
  type Record = map<string, JsValue>

  /** `row[i]`, which is `undefined` past the end of the row. */
  function CellAt(row: seq<JsValue>, i: nat): JsValue {
    if i < |row| then row[i] else Undefined
  }

  /** Position `j` holds the last occurrence of its name. */
  predicate LastOccurrence(names: seq<string>, j: nat)
    requires j < |names|
  {
    forall j' :: j < j' < |names| ==> names[j'] != names[j]
  }

  predicate Distinct<T(==)>(s: seq<T>) {
    forall i, j :: 0 <= i < j < |s| ==> s[i] != s[j]
  }

  /**
   * `Object.fromEntries(columns.map((col, i) => [col, row[i]]))`: one entry per
   * column name; when a name repeats, its last column wins.
   */
  function FromEntries(columns: seq<string>, row: seq<JsValue>): (m: Record)
    ensures forall c :: c in m <==> c in columns
    ensures forall j :: 0 <= j < |columns| && LastOccurrence(columns, j) ==> m[columns[j]] == CellAt(row, j)
  {
    if |columns| == 0 then map[]
    else
      var n := |columns| - 1;
      var prefix := columns[..n];
      var m := FromEntries(prefix, row)[columns[n] := CellAt(row, n)];
      assert columns == prefix + [columns[n]];
      assert forall j :: 0 <= j < n ==> prefix[j] == columns[j];
      assert forall j :: 0 <= j < n && LastOccurrence(columns, j) ==> LastOccurrence(prefix, j);
      m
  }

  /**
   * `sqljsHelpers.query`: only the last result set is used; no result set, or
   * one without rows, gives no records.
   */
  function Query(allResults: seq<ResultSet>): (r: seq<Record>)
    ensures |allResults| == 0 ==> r == []
    ensures |allResults| > 0 ==> |r| == |allResults[|allResults| - 1].values|
    ensures |allResults| > 0 ==> forall i :: 0 <= i < |r| ==>
      r[i] == FromEntries(allResults[|allResults| - 1].columns, allResults[|allResults| - 1].values[i])
  {
    if |allResults| == 0 then []
    else
      var last := allResults[|allResults| - 1];
      if |last.values| == 0 then []
      else seq(|last.values|, i requires 0 <= i < |last.values| => FromEntries(last.columns, last.values[i]))
  }

  /**
   * With distinct column names, record `i` maps column `j` to the row's `j`-th
   * value, for every row of the last result set in row order.
   */
  lemma QueryRecordFields(allResults: seq<ResultSet>, i: nat, j: nat)
    requires |allResults| > 0
    requires Distinct(allResults[|allResults| - 1].columns)
    requires i < |allResults[|allResults| - 1].values|
    requires j < |allResults[|allResults| - 1].columns|
    ensures |Query(allResults)| > i
    ensures allResults[|allResults| - 1].columns[j] in Query(allResults)[i]
    ensures Query(allResults)[i][allResults[|allResults| - 1].columns[j]]
            == CellAt(allResults[|allResults| - 1].values[i], j)
  {
    var last := allResults[|allResults| - 1];
    assert LastOccurrence(last.columns, j);
  }

  /** A last result set without rows gives no records, whatever came before it. */
  lemma QueryEmptyLastResult(allResults: seq<ResultSet>)
    requires |allResults| > 0 && |allResults[|allResults| - 1].values| == 0
    ensures Query(allResults) == []
  {
  }

  // ---------------------------------------------------------------------------
  // isTable

  /**
   * What sql.js answers to `SELECT name FROM sqlite_master WHERE type='table'
   * AND name=?`: one result set holding the name when the table exists, and
   * no result set at all otherwise (`exec` only reports sets that have rows).
   */
  function SchemaLookup(tables: set<string>, name: string): seq<ResultSet> {
    if name in tables then [ResultSet(["name"], [[Str(name)]])] else []
  }

  /**
   * `Array.prototype.values.length`. `exec` returns an array, so
   * `exec(...).values` in `isTable` is the array's `values` method, and a
   * function's `length` is the number of parameters it declares: none.
   */
  const ArrayValuesMethodLength: nat := 0

  /** `isTable` as written: `db.exec(...).values!.length > 0`. */
  function IsTableAsWritten(results: seq<ResultSet>): bool {
    ArrayValuesMethodLength > 0
  }

  /** `isTable` as intended: the lookup returned a result set with a row. */
  function IsTable(results: seq<ResultSet>): bool {
    |results| > 0 && |results[0].values| > 0
  }

  /** As written, the probe answers "no such table" for a table that exists. */
  lemma IsTableAsWrittenMissesTable(tables: set<string>, name: string)
    requires name in tables
    ensures !IsTableAsWritten(SchemaLookup(tables, name))
  {
  }

  /** As intended, the probe answers exactly whether the table exists. */
  lemma IsTableFindsTable(tables: set<string>, name: string)
    ensures IsTable(SchemaLookup(tables, name)) <==> name in tables
  {
  }
}
