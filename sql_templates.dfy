/**
 * The SQL text the document store builds: the templates its constructor
 * prepares from the index column names, and the statements of `init`, the
 * deletes and the `id in (...)` placeholder list.
 */
module SqlTemplates {
  import opened JsValues

  const IdColumn := "id"
  const JsonColumn := "json"

  /** `[dbRow.id, dbRow.json]`: the fixed columns ahead of the index columns. */
  const FixedColumns := [IdColumn, JsonColumn]

  /** `s.repeat(n)` */
  function Repeat(s: string, n: nat): (r: string)
    ensures |r| == n * |s|
  {
    if n == 0 then "" else s + Repeat(s, n - 1)
  }

  /** `s.slice(0, -1)`: everything but the last character (nothing left of the empty string). */
  function DropLast(s: string): string {
    if |s| == 0 then s else s[..|s| - 1]
  }

  function CountChar(s: string, c: char): nat {
    if |s| == 0 then 0 else (if s[0] == c then 1 else 0) + CountChar(s[1..], c)
  }

  lemma {:induction false} CountCharAppend(a: string, b: string, c: char)
    ensures CountChar(a + b, c) == CountChar(a, c) + CountChar(b, c)
    decreases |a|
  {
    if |a| > 0 {
      assert (a + b)[0] == a[0] && (a + b)[1..] == a[1..] + b;
      CountCharAppend(a[1..], b, c);
    } else {
      assert a + b == b;
    }
  }

  /** Repeating a piece n times repeats each of its characters n times. */
  lemma {:induction false} CountCharRepeat(s: string, n: nat, c: char)
    ensures CountChar(Repeat(s, n), c) == n * CountChar(s, c)
    decreases n
  {
    if n > 0 {
      CountCharAppend(s, Repeat(s, n - 1), c);
      CountCharRepeat(s, n - 1, c);
    }
  }

  // ---------------------------------------------------------------------------
  // The constructor's templates

  /** `_indexColumnNamesSql`: `, name` for each index column, in order. */
  function IndexColumnNamesSql(cols: seq<string>): string {
    if |cols| == 0 then "" else ", " + cols[0] + IndexColumnNamesSql(cols[1..])
  }

  /** `_indexQuestionMarksSql`: `', ?'.repeat(n)`. */
  function IndexQuestionMarksSql(n: nat): string {
    Repeat(", ?", n)
  }

  /** An assignment `column=?param` of the update clause, or the column a positional `?` fills. */
  datatype Binding = Binding(column: string, param: nat)

  /** The assignments `_updateParamsSql` writes: index column i takes parameter i + 3. */
  function UpdateBindings(cols: seq<string>): (bs: seq<Binding>)
    ensures |bs| == |cols|
  {
    seq(|cols|, i requires 0 <= i < |cols| => Binding(cols[i], i + |FixedColumns| + 1))
  }

  function RenderBindings(bs: seq<Binding>): string {
    if |bs| == 0 then "" else ", " + bs[0].column + "=?" + NatToString(bs[0].param) + RenderBindings(bs[1..])
  }

  /** `_updateParamsSql` */
  function UpdateParamsSql(cols: seq<string>): string {
    RenderBindings(UpdateBindings(cols))
  }

  function InsertHead(table: string, cols: seq<string>): string {
    "insert into " + table + " (" + IdColumn + ", " + JsonColumn + IndexColumnNamesSql(cols)
    + ") values (?, ?" + IndexQuestionMarksSql(|cols|) + ")"
  }

  /** `insertSql`: the plain insert used by `insertMany`. */
  function InsertSql(table: string, cols: seq<string>): string {
    InsertHead(table, cols) + ";"
  }

  /** `setSql`: the insert that turns into an update of json and index columns on a primary-key conflict. */
  function SetSql(table: string, cols: seq<string>): string {
    InsertHead(table, cols) + " on conflict(" + IdColumn + ") do update set " + JsonColumn + "=?2 "
    + UpdateParamsSql(cols) + " where " + IdColumn + "=?1;"
  }

  /**
   * The column each positional `?` of the insert fills: the k-th `?` is
   * parameter k + 1 and goes to the k-th listed column.
   */
  function InsertBindings(cols: seq<string>): (bs: seq<Binding>)
    ensures |bs| == |cols| + 2
  {
    var listed := FixedColumns + cols;
    seq(|listed|, k requires 0 <= k < |listed| => Binding(listed[k], k + 1))
  }

  /**
   * The conflict path writes each column from the parameter the insert path
   * writes it from: `id=?1`, `json=?2`, and index column i from `?(i+3)`.
   */
  lemma ConflictPathMatchesInsert(cols: seq<string>)
    ensures InsertBindings(cols)[0] == Binding(IdColumn, 1)
    ensures InsertBindings(cols)[1] == Binding(JsonColumn, 2)
    ensures forall i :: 0 <= i < |cols| ==> UpdateBindings(cols)[i] == InsertBindings(cols)[i + 2]
  {
  }

  /**
   * The rendered conflict clause `_updateParamsSql` is the index columns'
   * insert bindings written out: `, c=?k` for each index column `c` and the
   * positional parameter `k` that the insert fills it from.
   */
  lemma UpdateClauseRendersInsertBindings(cols: seq<string>)
    ensures UpdateParamsSql(cols) == RenderBindings(InsertBindings(cols)[|FixedColumns|..])
  {
    assert UpdateBindings(cols) == InsertBindings(cols)[|FixedColumns|..];
  }

  /**
   * The insert's value list holds one positional `?` per listed column:
   * two for id and json, one per index column.
   */
  lemma InsertPlaceholderCount(cols: seq<string>)
    ensures CountChar("?, ?" + IndexQuestionMarksSql(|cols|), '?') == |FixedColumns| + |cols|
  {
    CountCharAppend("?, ?", IndexQuestionMarksSql(|cols|), '?');
    CountCharRepeat(", ?", |cols|, '?');
    assert CountChar(", ?", '?') == 1 by {
      assert ", ?"[1..] == " ?" && " ?"[1..] == "?" && "?"[1..] == "";
    }
    assert CountChar("?, ?", '?') == 2 by {
      assert "?, ?"[1..] == ", ?";
      assert ", ?"[1..] == " ?" && " ?"[1..] == "?" && "?"[1..] == "";
    }
  }

  /** Every `?k` of the update clause names a parameter that the insert also binds. */
  lemma UpdateParamsInRange(cols: seq<string>)
    ensures forall i :: 0 <= i < |cols| ==> 3 <= UpdateBindings(cols)[i].param <= |cols| + 2
  {
  }

  // ---------------------------------------------------------------------------
  // `where id in (...)`

  /** `'?,'.repeat(n).slice(0, -1)` */
  function PlaceholderList(n: nat): string {
    DropLast(Repeat("?,", n))
  }

  lemma {:induction false} RepeatShift(n: nat)
    requires n >= 1
    ensures Repeat("?,", n) == "?" + Repeat(",?", n - 1) + ","
    decreases n
  {
    if n > 1 {
      RepeatShift(n - 1);
      calc {
        Repeat("?,", n);
        "?," + Repeat("?,", n - 1);
        "?," + ("?" + Repeat(",?", n - 2) + ",");
        "?" + (",?" + Repeat(",?", n - 2)) + ",";
        "?" + Repeat(",?", n - 1) + ",";
      }
    }
  }

  /** The placeholder list is n `?` separated by n - 1 commas, and empty for n = 0. */
  lemma PlaceholderListShape(n: nat)
    ensures n == 0 ==> PlaceholderList(n) == ""
    ensures n >= 1 ==> PlaceholderList(n) == "?" + Repeat(",?", n - 1)
    ensures n >= 1 ==> CountChar(PlaceholderList(n), '?') == n && CountChar(PlaceholderList(n), ',') == n - 1
    ensures |PlaceholderList(n)| == if n == 0 then 0 else 2 * n - 1
  {
    if n >= 1 {
      RepeatShift(n);
      var body := "?" + Repeat(",?", n - 1);
      assert Repeat("?,", n) == body + ",";
      assert PlaceholderList(n) == body;
      CountCharAppend("?", Repeat(",?", n - 1), '?');
      CountCharAppend("?", Repeat(",?", n - 1), ',');
      CountCharRepeat(",?", n - 1, '?');
      CountCharRepeat(",?", n - 1, ',');
      assert ",?"[1..] == "?" && "?"[1..] == "";
    }
  }

  // ---------------------------------------------------------------------------
  // The statements of `init` and of the deletes

  function CreateTableSql(table: string, cols: seq<string>): string {
    "create table if not exists " + table + " (" + IdColumn + " primary key not null, " + JsonColumn + " "
    + IndexColumnNamesSql(cols) + ");"
  }

  function AddColumnSql(table: string, column: string): string {
    "alter table " + table + " add column " + column + ";"
  }

  function DeleteByIdSql(table: string): string {
    "delete from " + table + " where " + IdColumn + " = ?;"
  }

  function DeleteManySql(table: string, n: nat): string {
    "delete from " + table + " where " + IdColumn + " in (" + PlaceholderList(n) + ");"
  }

  function DeleteAllSql(table: string): string {
    "delete from " + table + ";"
  }
}
