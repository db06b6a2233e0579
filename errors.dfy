/** The errors the document store and the transaction guard raise. */
module Errors {
  import opened Wrappers
  import opened JsValues

  datatype Error =
    /** `get`/`getMany` found no row for these ids. */
    | NotFound(table: string, ids: seq<JsValue>)
    /** `LockedDatabase.run` was given a transaction id that is not the current one. */
    | TransactionMismatch(current: Option<string>, attempted: string)
    /** The non-suspending `txn` found the lock busy. */
    | TransactionBusy(current: Option<string>, attempted: string)
    /** The engine has no table of this name. */
    | NoSuchTable(table: string)
    /** A statement named a column the table does not have. */
    | NoSuchColumn(table: string, column: string)
    /** A row was written with a null primary key (`id ... not null`). */
    | NotNullViolation(table: string)
    /** A plain insert hit a primary key that is already present. */
    | PrimaryKeyViolation(table: string, key: JsValue)
    /** A fetched row could not be parsed; carries the id being looked up. */
    | DeserializationError(table: string, id: JsValue)
    /** The engine refused to bind a parameter (sql.js cannot bind `undefined`). */
    | BindError(value: JsValue)
    /** An error thrown by a transaction's own action. */
    | ActionError(code: nat)
}
