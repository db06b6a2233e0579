/**
 * The document store's reads (`tryGet`, `get`, `tryGetMany`, `getMany`,
 * `exists`, `count`, `getAll`, `queryIndexes`) as functions of the engine's
 * table, and `update`/`upsert`, which read before they write.
 *
 * Where the engine decides an order (the rows of a scan, the rows matched by
 * `id in (...)`), the order is a parameter that lists the matching ids.
 */
module StoreReads {
  import opened Wrappers
  import opened JsValues
  import opened Errors
  import opened SqljsHelpers
  import opened SqlTemplates
  import opened StoreModel

  // ---------------------------------------------------------------------------
  // tryGet, get, exists, count

  /** `tryGet`: `select id, json ... where id = ?` bound to the sanitised id, then `JSON.parse`. */
  function TryGet<D>(s: Schema<D>, t: Table, id: JsValue): (r: Result<Option<D>, Error>)
    ensures !t.present <==> r == Failure(NoSuchTable(s.tableName))
    ensures t.present ==> r.Success? && (r.value.Some? <==> SanitizeValue(id) in t.rows)
  {
    if !t.present then Failure(NoSuchTable(s.tableName))
    else if SanitizeValue(id) in t.rows then Success(Some(s.decode(t.rows[SanitizeValue(id)].json)))
    else Success(None)
  }

  /** `get`: `tryGet`, but a missing document is an error naming the id. */
  function Get<D>(s: Schema<D>, t: Table, id: JsValue): (r: Result<D, Error>)
    ensures r.Success? <==> TryGet(s, t, id).Success? && TryGet(s, t, id).value.Some?
    ensures r.Success? ==> TryGet(s, t, id) == Success(Some(r.value))
    ensures t.present && SanitizeValue(id) !in t.rows ==> r == Failure(NotFound(s.tableName, [id]))
  {
    match TryGet(s, t, id)
    case Failure(e) => Failure(e)
    case Success(None) => Failure(NotFound(s.tableName, [id]))
    case Success(Some(d)) => Success(d)
  }

  /**
   * How sql.js binds a parameter handed to `exec` as is: a boolean becomes
   * 0 or 1, and `undefined` is refused.
   */
  function Bind(v: JsValue): (r: Result<JsValue, Error>)
    ensures r.Success? ==> IsSqlValue(r.value)
  {
    match v
    case Undefined => Failure(BindError(v))
    case Bool(b) => Success(Num(if b then 1 else 0))
    case _ => Success(v)
  }

  /** `exists`: `select 1 ... where id = ?` with the id bound as is (not sanitised). */
  function Exists<D>(s: Schema<D>, t: Table, id: JsValue): (r: Result<bool, Error>)
    ensures !t.present ==> r == Failure(NoSuchTable(s.tableName))
    ensures t.present && id.Undefined? ==> r == Failure(BindError(Undefined))
  {
    if !t.present then Failure(NoSuchTable(s.tableName))
    else
      match Bind(id)
      case Failure(e) => Failure(e)
      case Success(b) => Success(b in t.rows)
  }

  /** `count`: `select count(1) from T`. */
  function Count<D>(s: Schema<D>, t: Table): (r: Result<nat, Error>)
    ensures !t.present ==> r == Failure(NoSuchTable(s.tableName))
  {
    if !t.present then Failure(NoSuchTable(s.tableName)) else Success(|t.rows|)
  }

  /**
   * For an id that binds the same way sanitised and raw, `exists` answers
   * exactly whether `tryGet` finds a document.
   */
  lemma ExistsAgreesWithTryGet<D>(s: Schema<D>, t: Table, id: JsValue)
    requires t.present && Bind(id) == Success(SanitizeValue(id))
    ensures Exists(s, t, id) == Success(TryGet(s, t, id).value.Some?)
  {
  }

  /**
   * Where the two bindings differ they disagree: a document stored under the
   * number 1 is found by `tryGet("1")`, whose id is sanitised to 1, but not
   * by `exists("1")`, which binds the text "1".
   */
  lemma ExistsDiffersFromTryGetOnNumericText<D>(s: Schema<D>, t: Table)
    requires t.present && Num(1) in t.rows && Str("1") !in t.rows
    ensures Exists(s, t, Str("1")) == Success(false)
    ensures TryGet(s, t, Str("1")).value.Some?
  {
    OneAsText();
  }

  /** `Number("1")` is 1. */
  lemma OneAsText()
    ensures StringToNumber("1") == Some(1)
    ensures SanitizeValue(Str("1")) == Num(1) && Bind(Str("1")) == Success(Str("1"))
  {
    var one := "1";
    assert !IsJsWhitespace(one[0]);
    assert TrimStart(one) == one;
    assert TrimEnd(one) == one;
    assert IsDigits(one) && one[..0] == "";
    assert DigitsValue(one) == 1;
  }

  // ---------------------------------------------------------------------------
  // Scans: getAll and queryIndexes

  /** `order` names exactly the ids of `keys`. */
  predicate Lists(order: seq<JsValue>, keys: set<JsValue>) {
    (forall k :: k in order ==> k in keys) && (forall k :: k in keys ==> k in order)
  }

  /** `order` names each id of `keys` exactly once: the order a scan returns rows in. */
  predicate Enumerates(order: seq<JsValue>, keys: set<JsValue>) {
    Lists(order, keys) && Distinct(order)
  }

  /** The documents stored under `order`, parsed, in that order. */
  function DocsOf<D>(s: Schema<D>, t: Table, order: seq<JsValue>): (ds: seq<D>)
    requires forall k :: k in order ==> k in t.rows
    ensures |ds| == |order|
    ensures forall j :: 0 <= j < |order| ==> ds[j] == s.decode(t.rows[order[j]].json)
  {
    seq(|order|, j requires 0 <= j < |order| => s.decode(t.rows[order[j]].json))
  }

  /** `getAll`: `select json from T` in scan order, each row parsed. */
  function GetAll<D>(s: Schema<D>, t: Table, scan: seq<JsValue>): (r: Result<seq<D>, Error>)
    requires Enumerates(scan, t.rows.Keys)
    ensures !t.present ==> r == Failure(NoSuchTable(s.tableName))
  {
    if !t.present then Failure(NoSuchTable(s.tableName)) else Success(DocsOf(s, t, scan))
  }

  /**
   * `getAll` returns every stored document exactly once: the j-th document is
   * the one stored under the j-th id of the scan, it carries that id, and
   * serialises back to the stored text.
   */
  lemma GetAllReturnsStoredDocuments<D>(s: Schema<D>, t: Table, scan: seq<JsValue>)
    requires TableOk(s, t) && t.present && Enumerates(scan, t.rows.Keys)
    ensures var ds := GetAll(s, t, scan).value;
      && |ds| == |t.rows|
      && (forall j :: 0 <= j < |scan| ==> Key(s, ds[j]) == scan[j] && s.encode(ds[j]) == t.rows[scan[j]].json)
  {
    DistinctListHasSize(scan, t.rows.Keys);
  }

  lemma {:induction false} DistinctListHasSize(order: seq<JsValue>, keys: set<JsValue>)
    requires Enumerates(order, keys)
    ensures |order| == |keys|
    decreases |order|
  {
    if |order| > 0 {
      var k := order[|order| - 1];
      var pre := order[..|order| - 1];
      assert order == pre + [k];
      assert k !in pre;
      assert Enumerates(pre, keys - {k}) by {
        forall x | x in keys - {k} ensures x in pre {
          assert x in order;
        }
      }
      DistinctListHasSize(pre, keys - {k});
    } else {
      assert forall x :: x !in keys;
    }
  }

  /** The values one row contributes to `select id, <index columns>`. */
  function IndexRow<D>(s: Schema<D>, k: JsValue, r: Row): (vs: seq<JsValue>)
    ensures |vs| == 1 + |s.indexes|
    ensures vs[0] == k
    ensures forall i :: 0 <= i < |s.indexes| ==> vs[i + 1] == CellOf(r, s.indexes[i].name)
  {
    var cols := IndexColumns(s);
    [k] + seq(|cols|, j requires 0 <= j < |cols| => CellOf(r, cols[j]))
  }

  /** What sql.js's `exec` returns for `select id, <index columns> from T`: no result set when no row matches. */
  function IndexResults<D>(s: Schema<D>, t: Table, scan: seq<JsValue>): seq<ResultSet>
    requires forall k :: k in scan ==> k in t.rows
  {
    if |scan| == 0 then []
    else [ResultSet([IdColumn] + IndexColumns(s), seq(|scan|, p requires 0 <= p < |scan| => IndexRow(s, scan[p], t.rows[scan[p]])))]
  }

  /** `queryIndexes` without a `where` fragment: id and index columns of every row, as records. */
  function QueryIndexes<D>(s: Schema<D>, t: Table, scan: seq<JsValue>): (r: Result<seq<Record>, Error>)
    requires Enumerates(scan, t.rows.Keys)
    ensures r.Failure? <==> StatementError(s, t).Some?
  {
    match StatementError(s, t)
    case Some(e) => Failure(e)
    case None => Success(Query(IndexResults(s, t, scan)))
  }

  /** `id` and the index columns are distinct column names. */
  lemma ResultColumnsDistinct<D>(s: Schema<D>)
    requires SchemaOk(s)
    ensures Distinct([IdColumn] + IndexColumns(s))
  {
    var cols := [IdColumn] + IndexColumns(s);
    forall a, b | 0 <= a < b < |cols| ensures cols[a] != cols[b] {
      assert cols[b] == IndexColumns(s)[b - 1];
      if a > 0 {
        assert cols[a] == IndexColumns(s)[a - 1];
      }
    }
  }

  /** Record p of the index query holds the p-th scanned id and that row's index cells. */
  lemma IndexRecordFields<D>(s: Schema<D>, t: Table, scan: seq<JsValue>, p: nat)
    requires SchemaOk(s) && (forall k :: k in scan ==> k in t.rows) && p < |scan|
    ensures var recs := Query(IndexResults(s, t, scan));
      && |recs| == |scan|
      && IdColumn in recs[p] && recs[p][IdColumn] == scan[p]
      && (forall i :: 0 <= i < |s.indexes| ==>
            s.indexes[i].name in recs[p] && recs[p][s.indexes[i].name] == CellOf(t.rows[scan[p]], s.indexes[i].name))
  {
    var all := IndexResults(s, t, scan);
    var last := all[|all| - 1];
    var vs := IndexRow(s, scan[p], t.rows[scan[p]]);
    assert last.values[p] == vs;
    ResultColumnsDistinct(s);
    QueryRecordFields(all, p, 0);
    forall i | 0 <= i < |s.indexes|
      ensures s.indexes[i].name in Query(all)[p] && Query(all)[p][s.indexes[i].name] == CellOf(t.rows[scan[p]], s.indexes[i].name)
    {
      QueryRecordFields(all, p, i + 1);
      assert last.columns[i + 1] == s.indexes[i].name;
    }
  }

  /**
   * On a table whose index cells are fresh, `queryIndexes` returns one record
   * per stored document in scan order, holding its id and the sanitised value
   * of each accessor on it.
   */
  lemma QueryIndexesReportsAccessorValues<D>(s: Schema<D>, t: Table, scan: seq<JsValue>)
    requires SchemaOk(s) && IndexesFresh(s, t) && StatementError(s, t).None? && Enumerates(scan, t.rows.Keys)
    ensures var recs := QueryIndexes(s, t, scan).value;
      && |recs| == |scan|
      && (forall p :: 0 <= p < |scan| ==> IdColumn in recs[p] && recs[p][IdColumn] == scan[p])
      && (forall p, i :: 0 <= p < |scan| && 0 <= i < |s.indexes| ==>
            s.indexes[i].name in recs[p] &&
            recs[p][s.indexes[i].name] == SanitizeValue(s.indexes[i].accessor(s.decode(t.rows[scan[p]].json))))
  {
    if |scan| > 0 {
      IndexRecordFields(s, t, scan, 0);
    }
    forall p | 0 <= p < |scan| {
      IndexRecordFields(s, t, scan, p);
    }
  }

  // ---------------------------------------------------------------------------
  // tryGetMany and getMany

  /** The ids `id in (...)` matches: the sanitised ids that are stored. */
  function Matched(t: Table, ids: seq<JsValue>): set<JsValue> {
    set k | k in SanitizeParams(ids) && k in t.rows
  }

  /** `_.keyBy(rows, row => row.id)`: each row under `String(row.id)`; a later row wins. */
  function KeyBy(rows: seq<JsValue>): (m: map<string, JsValue>)
    ensures forall p :: p in m ==> m[p] in rows && PropertyKey(m[p]) == p
    ensures forall k :: k in rows ==> PropertyKey(k) in m
  {
    if |rows| == 0 then map[]
    else
      var n := |rows| - 1;
      assert rows == rows[..n] + [rows[n]];
      KeyBy(rows[..n])[PropertyKey(rows[n]) := rows[n]]
  }

  /** The lookup of one id in `rowById`, testing only the object's own keys. */
  function LookUp<D>(s: Schema<D>, t: Table, byId: map<string, JsValue>, id: JsValue): Option<D>
    requires forall p :: p in byId ==> byId[p] in t.rows
  {
    var p := PropertyKey(id);
    if p in byId then Some(s.decode(t.rows[byId[p]].json)) else None
  }

  /** Each id looked up in turn. */
  function LookUpAll<D>(s: Schema<D>, t: Table, byId: map<string, JsValue>, ids: seq<JsValue>): (rs: seq<Option<D>>)
    requires forall p :: p in byId ==> byId[p] in t.rows
    ensures |rs| == |ids| && forall i :: 0 <= i < |ids| ==> rs[i] == LookUp(s, t, byId, ids[i])
  {
    seq(|ids|, i requires 0 <= i < |ids| => LookUp(s, t, byId, ids[i]))
  }

  /**
   * `tryGetMany`, with `id in rowById` testing own keys only: no query for no
   * ids; otherwise one entry per id, in the order of `ids`.
   */
  function TryGetMany<D>(s: Schema<D>, t: Table, ids: seq<JsValue>, fetched: seq<JsValue>): (r: Result<seq<Option<D>>, Error>)
    requires Lists(fetched, Matched(t, ids))
    ensures |ids| == 0 ==> r == Success([])
    ensures |ids| > 0 && !t.present ==> r == Failure(NoSuchTable(s.tableName))
    ensures t.present ==> r.Success? && |r.value| == |ids|
  {
    if |ids| == 0 then Success([])
    else if !t.present then Failure(NoSuchTable(s.tableName))
    else
      Success(LookUpAll(s, t, KeyBy(fetched), ids))
  }

  /**
   * Ids whose `String` form tells apart the stored ids they sanitise to: the
   * text of an id is the text of its sanitised form, and ids with the same
   * text sanitise alike. Strings that do not start with a digit, white
   * space, a sign or a decimal point qualify (see `PlainIdsAreCoherent`).
   */
  predicate Coherent(ids: seq<JsValue>) {
    && (forall i :: 0 <= i < |ids| ==> PropertyKey(SanitizeValue(ids[i])) == PropertyKey(ids[i]))
    && (forall i, j :: 0 <= i < |ids| && 0 <= j < |ids| && PropertyKey(ids[i]) == PropertyKey(ids[j]) ==>
          SanitizeValue(ids[i]) == SanitizeValue(ids[j]))
  }

  /**
   * For coherent ids, `tryGetMany` returns, position by position, exactly
   * what `tryGet` returns for that id.
   */
  lemma TryGetManyAgreesWithTryGet<D>(s: Schema<D>, t: Table, ids: seq<JsValue>, fetched: seq<JsValue>)
    requires t.present && Lists(fetched, Matched(t, ids)) && Coherent(ids)
    ensures var rs := TryGetMany(s, t, ids, fetched).value;
      forall i :: 0 <= i < |ids| ==> TryGet(s, t, ids[i]) == Success(rs[i])
  {
    if |ids| > 0 {
      var byId := KeyBy(fetched);
      forall i | 0 <= i < |ids| ensures TryGet(s, t, ids[i]) == Success(LookUp(s, t, byId, ids[i])) {
        var p := PropertyKey(ids[i]);
        var k := SanitizeValue(ids[i]);
        if p in byId {
          var k' := byId[p];
          assert k' in Matched(t, ids);
          var j :| 0 <= j < |ids| && SanitizeParams(ids)[j] == k';
          assert PropertyKey(ids[j]) == p;
          assert k' == k;
        } else if k in t.rows {
          assert false;
        }
      }
    }
  }

  /** Strings that start with neither a digit, white space, a sign nor a decimal point are coherent ids. */
  lemma PlainIdsAreCoherent(ids: seq<JsValue>)
    requires forall i :: 0 <= i < |ids| ==>
      && ids[i].Str? && |ids[i].s| > 0 && !IsDigit(ids[i].s[0]) && !IsJsWhitespace(ids[i].s[0])
      && ids[i].s[0] != '+' && ids[i].s[0] != '-' && ids[i].s[0] != '.'
    ensures Coherent(ids)
  {
    forall i | 0 <= i < |ids| ensures SanitizeValue(ids[i]) == ids[i] && PropertyKey(ids[i]) == ids[i].s {
      NonNumericText(ids[i].s);
    }
  }

  /** The properties every plain JavaScript object inherits from `Object.prototype`. */
  const ObjectPrototypeKeys: set<string> := {
    "constructor", "hasOwnProperty", "isPrototypeOf", "propertyIsEnumerable",
    "toLocaleString", "toString", "valueOf", "__proto__",
    "__defineGetter__", "__defineSetter__", "__lookupGetter__", "__lookupSetter__"}

  /**
   * The `ids.map` of `_tryGetMany` as written: `id in rowById` also holds for
   * an inherited property, whose value has no `json`, so `JSON.parse` throws
   * and the catch reports a parse error for that id.
   */
  function LookUpAllAsWritten<D>(s: Schema<D>, t: Table, byId: map<string, JsValue>, ids: seq<JsValue>): (r: Result<seq<Option<D>>, Error>)
    requires forall p :: p in byId ==> byId[p] in t.rows
    ensures r.Success? ==> |r.value| == |ids|
  {
    if |ids| == 0 then Success([])
    else
      var p := PropertyKey(ids[0]);
      if p !in byId && p in ObjectPrototypeKeys then Failure(DeserializationError(s.tableName, ids[0]))
      else
        match LookUpAllAsWritten(s, t, byId, ids[1..])
        case Failure(e) => Failure(e)
        case Success(rest) => Success([LookUp(s, t, byId, ids[0])] + rest)
  }

  /** `tryGetMany` as written. */
  function TryGetManyAsWritten<D>(s: Schema<D>, t: Table, ids: seq<JsValue>, fetched: seq<JsValue>): Result<seq<Option<D>>, Error>
    requires Lists(fetched, Matched(t, ids))
  {
    if |ids| == 0 then Success([])
    else if !t.present then Failure(NoSuchTable(s.tableName))
    else LookUpAllAsWritten(s, t, KeyBy(fetched), ids)
  }

  /**
   * As written, asking for a document whose id is the name of an inherited
   * property (`"toString"`) that is not stored fails with a parse error,
   * where `tryGet` and the intended `tryGetMany` report it missing.
   */
  lemma InheritedNameBreaksTryGetMany<D>(s: Schema<D>, t: Table, fetched: seq<JsValue>)
    requires t.present && Str("toString") !in t.rows
    requires Lists(fetched, Matched(t, [Str("toString")]))
    ensures TryGetManyAsWritten(s, t, [Str("toString")], fetched)
            == Failure(DeserializationError(s.tableName, Str("toString")))
    ensures TryGetMany(s, t, [Str("toString")], fetched) == Success([None])
    ensures TryGet(s, t, Str("toString")) == Success(None)
  {
    var ids := [Str("toString")];
    NonNumericText("toString");
    assert SanitizeValue(ids[0]) == ids[0];
    assert SanitizeParams(ids) == ids;
    assert forall k :: k !in Matched(t, ids);
    var byId := KeyBy(fetched);
    assert "toString" !in byId;
    assert "toString" in ObjectPrototypeKeys;
    assert LookUpAll(s, t, byId, ids) == [None];
  }

  /**
   * The same for `getMany`: as written it fails with the parse error, where
   * the intended `getMany` reports the id not found.
   */
  lemma InheritedNameBreaksGetMany<D>(s: Schema<D>, t: Table, fetched: seq<JsValue>)
    requires t.present && Str("toString") !in t.rows
    requires Lists(fetched, Matched(t, [Str("toString")]))
    ensures GetManyAsWritten(s, t, [Str("toString")], fetched)
            == Failure(DeserializationError(s.tableName, Str("toString")))
    ensures GetMany(s, t, [Str("toString")], fetched) == Failure(NotFound(s.tableName, [Str("toString")]))
  {
    InheritedNameBreaksTryGetMany(s, t, fetched);
    var none: Option<D> := None;
    MissingOfOne(Str("toString"), none);
  }

  /** A single missing id is reported alone. */
  lemma MissingOfOne<D>(a: JsValue, none: Option<D>)
    requires none.None?
    ensures MissingIds([a], [none]) == [a]
  {
    assert [a][..0] == [] && [none][..0] == [];
  }

  /** When no id is named like an inherited property, the code as written agrees with the intended lookup. */
  lemma {:induction false} LookUpAllAsWrittenAgrees<D>(s: Schema<D>, t: Table, byId: map<string, JsValue>, ids: seq<JsValue>)
    requires forall p :: p in byId ==> byId[p] in t.rows
    requires forall i :: 0 <= i < |ids| ==> PropertyKey(ids[i]) !in ObjectPrototypeKeys
    ensures LookUpAllAsWritten(s, t, byId, ids) == Success(LookUpAll(s, t, byId, ids))
    decreases |ids|
  {
    if |ids| > 0 {
      LookUpAllAsWrittenAgrees(s, t, byId, ids[1..]);
      assert LookUpAll(s, t, byId, ids) == [LookUp(s, t, byId, ids[0])] + LookUpAll(s, t, byId, ids[1..]);
    } else {
      assert LookUpAll(s, t, byId, ids) == [];
    }
  }

  /** Missing documents only make a difference to the code as written when their ids are inherited names. */
  lemma TryGetManyAsWrittenAgrees<D>(s: Schema<D>, t: Table, ids: seq<JsValue>, fetched: seq<JsValue>)
    requires Lists(fetched, Matched(t, ids))
    requires forall i :: 0 <= i < |ids| ==> PropertyKey(ids[i]) !in ObjectPrototypeKeys
    ensures TryGetManyAsWritten(s, t, ids, fetched) == TryGetMany(s, t, ids, fetched)
  {
    if |ids| > 0 && t.present {
      LookUpAllAsWrittenAgrees(s, t, KeyBy(fetched), ids);
    }
  }

  /** The positions that hold `true`, in increasing order: exactly those, each once. */
  function Positions(f: seq<bool>): (p: seq<nat>)
    ensures forall k :: 0 <= k < |p| ==> p[k] < |f| && f[p[k]]
    ensures forall k, l :: 0 <= k < l < |p| ==> p[k] < p[l]
    ensures forall i :: 0 <= i < |f| && f[i] ==> i in p
  {
    if |f| == 0 then []
    else
      var q := Positions(f[..|f| - 1]);
      if f[|f| - 1] then q + [|f| - 1] else q
  }

  /** Which answers are missing. */
  function Nones<D>(rs: seq<Option<D>>): (f: seq<bool>)
    ensures |f| == |rs| && forall i :: 0 <= i < |rs| ==> f[i] == rs[i].None?
  {
    seq(|rs|, i requires 0 <= i < |rs| => rs[i].None?)
  }

  /**
   * `ids.filter((_, i) => results[i] == null)`: the ids whose answer is
   * missing, in input order and with repeats kept, that is, the ids at the
   * missing positions, one after the other.
   */
  function MissingIds<D>(ids: seq<JsValue>, rs: seq<Option<D>>): (m: seq<JsValue>)
    requires |ids| == |rs|
    ensures var p := Positions(Nones(rs));
      |m| == |p| && forall k :: 0 <= k < |m| ==> m[k] == ids[p[k]]
    ensures |m| <= |ids|
    ensures |m| == 0 <==> forall i :: 0 <= i < |rs| ==> rs[i].Some?
    ensures forall i :: 0 <= i < |ids| && rs[i].None? ==> ids[i] in m
    ensures forall x :: x in m ==> exists i :: 0 <= i < |ids| && rs[i].None? && ids[i] == x
  {
    if |ids| == 0 then []
    else
      var n := |ids| - 1;
      var rest := MissingIds(ids[..n], rs[..n]);
      var m := rest + (if rs[n].None? then [ids[n]] else []);
      MissingIdsStep(ids, rs, rest, m);
      MissingIdsMembers(ids, rs, m);
      m
  }

  /** An id sequence laid out along the missing positions holds exactly the ids whose answer is missing. */
  lemma MissingIdsMembers<D>(ids: seq<JsValue>, rs: seq<Option<D>>, m: seq<JsValue>)
    requires |ids| == |rs|
    requires var p := Positions(Nones(rs));
      |m| == |p| && forall k :: 0 <= k < |m| ==> m[k] == ids[p[k]]
    ensures |m| <= |ids|
    ensures |m| == 0 <==> forall i :: 0 <= i < |rs| ==> rs[i].Some?
    ensures forall i :: 0 <= i < |ids| && rs[i].None? ==> ids[i] in m
    ensures forall x :: x in m ==> exists i :: 0 <= i < |ids| && rs[i].None? && ids[i] == x
  {
    var p := Positions(Nones(rs));
    PositionsBounded(Nones(rs));
    forall i | 0 <= i < |ids| && rs[i].None? ensures ids[i] in m {
      var k :| 0 <= k < |p| && p[k] == i;
      assert m[k] == ids[i];
    }
    forall x | x in m ensures exists i :: 0 <= i < |ids| && rs[i].None? && ids[i] == x {
      var k :| 0 <= k < |m| && m[k] == x;
      assert rs[p[k]].None?;
    }
  }

  /** There are at most as many set positions as flags. */
  lemma {:induction false} PositionsBounded(f: seq<bool>)
    ensures |Positions(f)| <= |f|
  {
    if |f| > 0 {
      PositionsBounded(f[..|f| - 1]);
    }
  }

  /** The filter's last step: the ids before the last position, then the last id if its answer is missing. */
  lemma MissingIdsStep<D>(ids: seq<JsValue>, rs: seq<Option<D>>, rest: seq<JsValue>, m: seq<JsValue>)
    requires |ids| == |rs| > 0
    requires var n := |ids| - 1; var p := Positions(Nones(rs[..n]));
      |rest| == |p| && forall k :: 0 <= k < |rest| ==> rest[k] == ids[..n][p[k]]
    requires m == rest + (if rs[|ids| - 1].None? then [ids[|ids| - 1]] else [])
    ensures var p := Positions(Nones(rs));
      |m| == |p| && forall k :: 0 <= k < |m| ==> m[k] == ids[p[k]]
  {
    var n := |ids| - 1;
    var f := Nones(rs);
    assert Nones(rs[..n]) == f[..n];
    var q := Positions(f[..n]);
    assert Positions(f) == if f[n] then q + [n] else q;
    forall k | 0 <= k < |rest| ensures rest[k] == ids[q[k]] {
      assert q[k] < n;
    }
  }

  /** The rest of `getMany`: the documents, or an error naming all the ids that have none. */
  function Collect<D>(table: string, ids: seq<JsValue>, rs: seq<Option<D>>): (r: Result<seq<D>, Error>)
    requires |ids| == |rs|
    ensures r.Success? <==> forall i :: 0 <= i < |rs| ==> rs[i].Some?
    ensures r.Success? ==> |r.value| == |rs| && forall i :: 0 <= i < |rs| ==> rs[i] == Some(r.value[i])
    ensures r.Failure? ==> r.error.NotFound? && r.error.table == table
    ensures r.Failure? ==> forall x :: x in r.error.ids <==> exists i :: 0 <= i < |ids| && rs[i].None? && ids[i] == x
    ensures r.Failure? ==> var p := Positions(Nones(rs));
      |r.error.ids| == |p| && forall k :: 0 <= k < |p| ==> r.error.ids[k] == ids[p[k]]
  {
    var missing := MissingIds(ids, rs);
    if |missing| > 0 then Failure(NotFound(table, missing))
    else Success(seq(|rs|, i requires 0 <= i < |rs| => rs[i].value))
  }

  /** `getMany`: every document, in the order of `ids`, or an error naming all the missing ids. */
  function GetMany<D>(s: Schema<D>, t: Table, ids: seq<JsValue>, fetched: seq<JsValue>): (r: Result<seq<D>, Error>)
    requires Lists(fetched, Matched(t, ids))
    ensures |ids| == 0 ==> r == Success([])
  {
    match TryGetMany(s, t, ids, fetched)
    case Failure(e) => Failure(e)
    case Success(rs) => Collect(s.tableName, ids, rs)
  }

  /** `getMany` as written: the same filter, over `tryGetMany` as written. */
  function GetManyAsWritten<D>(s: Schema<D>, t: Table, ids: seq<JsValue>, fetched: seq<JsValue>): (r: Result<seq<D>, Error>)
    requires Lists(fetched, Matched(t, ids))
    ensures |ids| == 0 ==> r == Success([])
  {
    match TryGetManyAsWritten(s, t, ids, fetched)
    case Failure(e) => Failure(e)
    case Success(rs) => Collect(s.tableName, ids, rs)
  }

  /** When no id is named like an inherited property, `getMany` as written is the intended `getMany`. */
  lemma GetManyAsWrittenAgrees<D>(s: Schema<D>, t: Table, ids: seq<JsValue>, fetched: seq<JsValue>)
    requires Lists(fetched, Matched(t, ids))
    requires forall i :: 0 <= i < |ids| ==> PropertyKey(ids[i]) !in ObjectPrototypeKeys
    ensures GetManyAsWritten(s, t, ids, fetched) == GetMany(s, t, ids, fetched)
  {
    TryGetManyAsWrittenAgrees(s, t, ids, fetched);
  }

  /**
   * `getMany` is all or nothing: for coherent ids it returns every document,
   * each the one `get` returns for its id, exactly when every id is stored,
   * and otherwise reports exactly the ids that are not.
   */
  lemma GetManyAllOrNothing<D>(s: Schema<D>, t: Table, ids: seq<JsValue>, fetched: seq<JsValue>)
    requires t.present && Lists(fetched, Matched(t, ids)) && Coherent(ids)
    ensures var r := GetMany(s, t, ids, fetched);
      && (r.Success? <==> forall i :: 0 <= i < |ids| ==> SanitizeValue(ids[i]) in t.rows)
      && (r.Success? ==> |r.value| == |ids| && forall i :: 0 <= i < |ids| ==> Get(s, t, ids[i]) == Success(r.value[i]))
      && (r.Failure? ==> r.error == NotFound(s.tableName, r.error.ids) && forall x :: x in r.error.ids <==>
            exists i :: 0 <= i < |ids| && SanitizeValue(ids[i]) !in t.rows && ids[i] == x)
      && (r.Failure? ==> var p := Positions(Absent(t, ids));
            |r.error.ids| == |p| && forall k :: 0 <= k < |p| ==> r.error.ids[k] == ids[p[k]])
  {
    TryGetManyAgreesWithTryGet(s, t, ids, fetched);
    MissingAreAbsent(s, t, ids, fetched);
  }

  /** For coherent ids, the answers `tryGetMany` leaves missing are those of the ids with no row. */
  lemma MissingAreAbsent<D>(s: Schema<D>, t: Table, ids: seq<JsValue>, fetched: seq<JsValue>)
    requires t.present && Lists(fetched, Matched(t, ids)) && Coherent(ids)
    ensures var rs := TryGetMany(s, t, ids, fetched).value;
      && (forall i :: 0 <= i < |ids| ==> (rs[i].None? <==> SanitizeValue(ids[i]) !in t.rows))
      && Nones(rs) == Absent(t, ids)
  {
    TryGetManyAgreesWithTryGet(s, t, ids, fetched);
    var rs := TryGetMany(s, t, ids, fetched).value;
    assert forall i :: 0 <= i < |ids| ==> (rs[i].None? <==> SanitizeValue(ids[i]) !in t.rows);
    assert Nones(rs) == Absent(t, ids);
  }

  /** Which ids have no row under their sanitised form. */
  function Absent(t: Table, ids: seq<JsValue>): (f: seq<bool>)
    ensures |f| == |ids| && forall i :: 0 <= i < |ids| ==> f[i] == (SanitizeValue(ids[i]) !in t.rows)
  {
    seq(|ids|, i requires 0 <= i < |ids| => SanitizeValue(ids[i]) !in t.rows)
  }

  /** Of three ids of which only the middle one is stored, `getMany` reports the first and the last, in order. */
  lemma GetManyReportsMissingInOrder<D>(s: Schema<D>, t: Table, a: JsValue, b: JsValue, c: JsValue, fetched: seq<JsValue>)
    requires t.present && Coherent([a, b, c]) && Lists(fetched, Matched(t, [a, b, c]))
    requires SanitizeValue(a) !in t.rows && SanitizeValue(b) in t.rows && SanitizeValue(c) !in t.rows
    ensures TryGetMany(s, t, [a, b, c], fetched) == Success([None, Some(s.decode(t.rows[SanitizeValue(b)].json)), None])
    ensures GetMany(s, t, [a, b, c], fetched) == Failure(NotFound(s.tableName, [a, c]))
  {
    TryGetManyOfThree(s, t, a, b, c, fetched);
    MissingOfThree(a, b, c, s.decode(t.rows[SanitizeValue(b)].json));
  }

  /** The answers of `tryGetMany` for three ids of which only the middle one is stored. */
  lemma TryGetManyOfThree<D>(s: Schema<D>, t: Table, a: JsValue, b: JsValue, c: JsValue, fetched: seq<JsValue>)
    requires t.present && Coherent([a, b, c]) && Lists(fetched, Matched(t, [a, b, c]))
    requires SanitizeValue(a) !in t.rows && SanitizeValue(b) in t.rows && SanitizeValue(c) !in t.rows
    ensures TryGetMany(s, t, [a, b, c], fetched) == Success([None, Some(s.decode(t.rows[SanitizeValue(b)].json)), None])
  {
    var ids := [a, b, c];
    TryGetManyAgreesWithTryGet(s, t, ids, fetched);
    var rs := TryGetMany(s, t, ids, fetched).value;
    assert |rs| == 3;
    assert rs[0] == None by { assert TryGet(s, t, ids[0]) == Success(rs[0]); }
    assert rs[1] == Some(s.decode(t.rows[SanitizeValue(b)].json)) by { assert TryGet(s, t, ids[1]) == Success(rs[1]); }
    assert rs[2] == None by { assert TryGet(s, t, ids[2]) == Success(rs[2]); }
    SeqOfThree(rs, None, Some(s.decode(t.rows[SanitizeValue(b)].json)), None);
  }

  /** A sequence of length three is the display of its elements. */
  lemma SeqOfThree<T>(rs: seq<T>, x: T, y: T, z: T)
    requires |rs| == 3 && rs[0] == x && rs[1] == y && rs[2] == z
    ensures rs == [x, y, z]
  {
  }

  lemma MissingOfThree<D>(a: JsValue, b: JsValue, c: JsValue, d: D)
    ensures MissingIds([a, b, c], [None, Some(d), None]) == [a, c]
  {
    var none: Option<D> := None;
    var rs := [none, Some(d), none];
    assert Nones(rs) == [true, false, true];
    PositionsOfThree();
    AtFirstAndLast([a, b, c], MissingIds([a, b, c], rs), Positions(Nones(rs)));
  }

  /** The ids laid out along the positions 0 and 2 of three ids are the first and the last. */
  lemma AtFirstAndLast(ids: seq<JsValue>, m: seq<JsValue>, p: seq<nat>)
    requires |ids| == 3 && p == [0, 2]
    requires |m| == |p| && forall k :: 0 <= k < |m| ==> m[k] == ids[p[k]]
    ensures m == [ids[0], ids[2]]
  {
    assert m[0] == ids[0] && m[1] == ids[2];
  }

  /** The missing positions of "missing, present, missing" are the first and the last. */
  lemma PositionsOfThree()
    ensures Positions([true, false, true]) == [0, 2]
  {
    assert [true, false, true][..2] == [true, false];
    assert [true, false][..1] == [true];
    assert [true][..0] == [];
  }

  // ---------------------------------------------------------------------------
  // Reading back what a write did

  /**
   * After a successful `set` or insert, `get` of the document's id returns the
   * document, and every id stored under another key reads as before.
   */
  lemma WriteThenGet<D>(s: Schema<D>, t: Table, v: D, insert: bool, t1: Table)
    requires SchemaOk(s) && Encodes(s, v)
    requires ApplyWrite(s, t, v, insert) == Success(t1)
    ensures Get(s, t1, s.docId(v)) == Success(v)
    ensures forall id :: SanitizeValue(id) != Key(s, v) ==> TryGet(s, t1, id) == TryGet(s, t, id)
  {
    WriteChangesOneRow(s, t, v, insert, t1);
  }

  /** After a successful write the count grows by one exactly when the id was new. */
  lemma WriteCount<D>(s: Schema<D>, t: Table, v: D, insert: bool, t1: Table)
    requires SchemaOk(s)
    requires ApplyWrite(s, t, v, insert) == Success(t1)
    ensures Count(s, t1) == Success(|t.rows| + if Key(s, v) in t.rows then 0 else 1)
  {
    WriteSucceeded(s, t, v, insert);
    var m := t.rows;
    var m1 := m[Key(s, v) := WrittenRow(s, t, v)];
    assert t1.rows == m1;
    assert |m1| == |m| + if Key(s, v) in m then 0 else 1;
  }

  /**
   * After `remove` or `removeMany`, none of the removed ids reads back, and
   * every id not sanitised to one of them reads as before.
   */
  lemma DeleteThenTryGet<D>(s: Schema<D>, t: Table, ids: seq<JsValue>)
    requires t.present
    ensures var t1 := ApplyDelete(s, t, SanitizeParams(ids)).value;
      && (forall i :: 0 <= i < |ids| ==> TryGet(s, t1, ids[i]) == Success(None))
      && (forall id :: (forall i :: 0 <= i < |ids| ==> SanitizeValue(id) != SanitizeValue(ids[i])) ==>
            TryGet(s, t1, id) == TryGet(s, t, id))
  {
    DeleteRemovesExactly(s, t, ids);
  }

  /** After `removeAll` the table is empty. */
  lemma DeleteAllEmpties<D>(s: Schema<D>, t: Table)
    requires t.present
    ensures Count(s, ApplyDeleteAll(s, t).value) == Success(0)
    ensures forall id :: TryGet(s, ApplyDeleteAll(s, t).value, id) == Success(None)
  {
  }

  // ---------------------------------------------------------------------------
  // update and upsert

  /** A read that either throws or yields the documents to `set`, followed by that `set`. */
  function ReadThenWrite<D>(s: Schema<D>, t: Table, current: Option<string>, txnId: string, read: Result<seq<D>, Error>): Batch
    requires SchemaOk(s)
  {
    match read
    case Failure(e) => Batch(t, 0, Some(e))
    case Success(vs) => WriteBatch(s, t, current, txnId, vs, false)
  }

  /** The documents a successful read hands on to `set`. */
  function WritesOf<D>(read: Result<seq<D>, Error>): seq<D> {
    match read
    case Failure(_) => []
    case Success(vs) => vs
  }

  /** The read half of `update`: `get` the document (throwing when it is missing) and apply the action. */
  function UpdateRead<D>(s: Schema<D>, t: Table, id: JsValue, action: D -> D): Result<seq<D>, Error> {
    match Get(s, t, id)
    case Failure(e) => Failure(e)
    case Success(d) => Success([action(d)])
  }

  /** `update`: read, apply the action, `set` the result. */
  function UpdateBatch<D>(s: Schema<D>, t: Table, current: Option<string>, txnId: string, id: JsValue, action: D -> D): Batch
    requires SchemaOk(s)
  {
    ReadThenWrite(s, t, current, txnId, UpdateRead(s, t, id, action))
  }

  /** The document `upsert` hands to the action: the stored one, else the initializer. */
  function UpsertBase<D>(found: Option<D>, initializer: D): D {
    match found
    case Some(d) => d
    case None => initializer
  }

  /** The read half of `upsert`: `tryGet` the initializer's id, fall back to the initializer, apply the action. */
  function UpsertRead<D>(s: Schema<D>, t: Table, initializer: D, action: D -> D): Result<seq<D>, Error> {
    match TryGet(s, t, s.docId(initializer))
    case Failure(e) => Failure(e)
    case Success(found) => Success([action(UpsertBase(found, initializer))])
  }

  /** `upsert`: like `update`, but a missing document is replaced by the initializer. */
  function UpsertBatch<D>(s: Schema<D>, t: Table, current: Option<string>, txnId: string, initializer: D, action: D -> D): Batch
    requires SchemaOk(s)
  {
    ReadThenWrite(s, t, current, txnId, UpsertRead(s, t, initializer, action))
  }

  /** `update` of an id that is not stored fails before sending anything, whatever the transaction. */
  lemma UpdateOfMissingFails<D>(s: Schema<D>, t: Table, current: Option<string>, txnId: string, id: JsValue, action: D -> D)
    requires SchemaOk(s) && t.present && SanitizeValue(id) !in t.rows
    ensures UpdateBatch(s, t, current, txnId, id, action) == Batch(t, 0, Some(NotFound(s.tableName, [id])))
  {
  }

  /**
   * `update` of a stored document in the current transaction stores what the
   * action made of it, under the id the result carries.
   */
  lemma UpdateStoresActionResult<D>(s: Schema<D>, t: Table, txnId: string, id: JsValue, action: D -> D)
    requires SchemaOk(s) && StatementError(s, t).None? && SanitizeValue(id) in t.rows
    requires var d := action(s.decode(t.rows[SanitizeValue(id)].json)); Encodes(s, d) && Key(s, d) != Null
    ensures var d := action(s.decode(t.rows[SanitizeValue(id)].json));
      var b := UpdateBatch(s, t, Some(txnId), txnId, id, action);
      b.error.None? && b.issued == 1 && Get(s, b.table, s.docId(d)) == Success(d)
  {
    var d := action(s.decode(t.rows[SanitizeValue(id)].json));
    var t1 := ApplyWrite(s, t, d, false).value;
    assert ApplyWrites(s, t, [d], false) == Later(ApplyWrites(s, t1, [], false), 1);
    WriteThenGet(s, t, d, false, t1);
  }

  /** `upsert` applies the action to the stored document when there is one, else to the initializer. */
  lemma UpsertChoosesBase<D>(s: Schema<D>, t: Table, current: Option<string>, txnId: string, initializer: D, action: D -> D)
    requires SchemaOk(s) && t.present
    ensures var k := Key(s, initializer);
      UpsertBatch(s, t, current, txnId, initializer, action)
      == WriteBatch(s, t, current, txnId, [action(if k in t.rows then s.decode(t.rows[k].json) else initializer)], false)
  {
  }
}
