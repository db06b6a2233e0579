/**
 * `LockedDatabase`: the single-writer guard in front of the sql.js engine.
 * Every write names a transaction id and is refused unless that id is the
 * current one; `txn` and `txnAsync` bracket an action between BEGIN and
 * COMMIT (then a flush trigger) or ROLLBACK (then the error again), and on
 * every path clear the current id, pop the queue entry and call the logging
 * hook.
 *
 * The engine is seen through what is sent to it: every statement handed to
 * `db.run`, every call of `flush` and every call of the logging hook is
 * appended, in order, to `effects`. The async lock is the external flag
 * `busy`; its queueing is not part of this model.
 */
module LockedDb {
  import opened Wrappers
  import opened JsValues
  import opened Errors

  /** A statement handed to the engine's `run`. */
  datatype Statement = Statement(sql: string, params: seq<JsValue>)

  const Begin := Statement("BEGIN TRANSACTION;", [])
  const Commit := Statement("COMMIT TRANSACTION;", [])
  const Rollback := Statement("ROLLBACK TRANSACTION;", [])

  /** What the guard is seen to do, in order. */
  datatype Effect =
    | Executed(statement: Statement)
    | Flushed
    | HookCalled(item: QueuedItem)

  /** An entry of `state.queued`; the timing fields are not modelled. */
  datatype QueuedItem = QueuedItem(txnId: string, description: string)

  /** `${description} ${suffix}`, where the random hexadecimal suffix is an input. */
  function TxnIdFor(description: string, suffix: string): string {
    description + " " + suffix
  }

  /** A throw from inside the action, after it has run `after` of its statements. */
  datatype ActionFailure = ActionFailure(after: nat, error: Error)

  /** A transaction's action as data: the statements it runs under its id, and whether it then throws. */
  datatype Action = Action(statements: seq<Statement>, failure: Option<ActionFailure>)

  /** The statements the action gets to run before it returns or throws. */
  function Issued(a: Action): (s: seq<Statement>)
    ensures |s| <= |a.statements| && s == a.statements[..|s|]
    ensures a.failure.None? ==> s == a.statements
  {
    match a.failure
    case None => a.statements
    case Some(f) => a.statements[..if f.after < |a.statements| then f.after else |a.statements|]
  }

  function ExecutedAll(ss: seq<Statement>): (es: seq<Effect>)
    ensures |es| == |ss| && forall i :: 0 <= i < |ss| ==> es[i] == Executed(ss[i])
  {
    if |ss| == 0 then [] else [Executed(ss[0])] + ExecutedAll(ss[1..])
  }

  /** Appending four records one after another appends their concatenation. */
  lemma AppendFour(e: seq<Effect>, a: seq<Effect>, b: seq<Effect>, c: seq<Effect>, d: seq<Effect>)
    ensures e + a + b + c + d == e + (a + b + c + d)
  {
  }

  /** One more statement run after the first i adds its effect to the record of the first i. */
  lemma ExecutedStep(before: seq<Effect>, ss: seq<Statement>, i: nat, mid: seq<Effect>, after: seq<Effect>)
    requires i < |ss|
    requires mid == before + ExecutedAll(ss[..i])
    requires after == mid + [Executed(ss[i])]
    ensures after == before + ExecutedAll(ss[..i + 1])
  {
    assert ExecutedAll(ss[..i + 1]) == ExecutedAll(ss[..i]) + [Executed(ss[i])];
  }

  /** What the caller of `txn`/`txnAsync` gets back: nothing, or the action's own error. */
  function TxnOutcome(a: Action): Outcome<Error> {
    match a.failure
    case None => Pass
    case Some(f) => Fail(f.error)
  }

  function HookEffects(hasHook: bool, item: QueuedItem): seq<Effect> {
    if hasHook then [HookCalled(item)] else []
  }

  /**
   * Everything one transaction does once it owns the lock: BEGIN, the action's
   * statements, then COMMIT and a flush, or ROLLBACK; then the logging hook.
   */
  function Transcript(a: Action, hasHook: bool, item: QueuedItem): seq<Effect> {
    [Executed(Begin)] + ExecutedAll(Issued(a)) + Ending(a) + HookEffects(hasHook, item)
  }

  /** COMMIT followed by the flush trigger, or ROLLBACK. */
  function Ending(a: Action): seq<Effect> {
    if a.failure.None? then [Executed(Commit), Flushed] else [Executed(Rollback)]
  }

  function CountFlushes(es: seq<Effect>): nat {
    if |es| == 0 then 0 else (if es[0] == Flushed then 1 else 0) + CountFlushes(es[1..])
  }

  lemma {:induction false} CountFlushesAppend(a: seq<Effect>, b: seq<Effect>)
    ensures CountFlushes(a + b) == CountFlushes(a) + CountFlushes(b)
    decreases |a|
  {
    if |a| > 0 {
      assert (a + b)[0] == a[0] && (a + b)[1..] == a[1..] + b;
      CountFlushesAppend(a[1..], b);
    } else {
      assert a + b == b;
    }
  }

  lemma {:induction false} NoFlushAmongStatements(ss: seq<Statement>)
    ensures CountFlushes(ExecutedAll(ss)) == 0
    decreases |ss|
  {
    if |ss| > 0 {
      assert ExecutedAll(ss)[1..] == ExecutedAll(ss[1..]);
      NoFlushAmongStatements(ss[1..]);
    }
  }

  /**
   * A transaction that commits issues BEGIN, the action's statements in order
   * and COMMIT, and triggers exactly one flush, right after the COMMIT.
   */
  lemma TranscriptOfCommit(a: Action, hasHook: bool, item: QueuedItem)
    requires a.failure.None?
    ensures var t := Transcript(a, hasHook, item); var n := |a.statements|;
      && |t| == n + 3 + (if hasHook then 1 else 0)
      && t[0] == Executed(Begin)
      && (forall i :: 0 <= i < n ==> t[i + 1] == Executed(a.statements[i]))
      && t[n + 1] == Executed(Commit)
      && t[n + 2] == Flushed
      && CountFlushes(t) == 1
  {
    var t := Transcript(a, hasHook, item);
    FlushesOfTranscript(a, hasHook, item);
  }

  /**
   * A transaction whose action throws issues BEGIN, the statements the action
   * ran before throwing and ROLLBACK, and never triggers a flush.
   */
  lemma TranscriptOfRollback(a: Action, hasHook: bool, item: QueuedItem)
    requires a.failure.Some?
    ensures var t := Transcript(a, hasHook, item); var n := |Issued(a)|;
      && |t| == n + 2 + (if hasHook then 1 else 0)
      && t[0] == Executed(Begin)
      && (forall i :: 0 <= i < n ==> t[i + 1] == Executed(a.statements[i]))
      && t[n + 1] == Executed(Rollback)
      && CountFlushes(t) == 0
  {
    FlushesOfTranscript(a, hasHook, item);
  }

  lemma FlushesOfTranscript(a: Action, hasHook: bool, item: QueuedItem)
    ensures CountFlushes(Transcript(a, hasHook, item)) == if a.failure.None? then 1 else 0
  {
    var tail := Ending(a);
    CountFlushesAppend([Executed(Begin)], ExecutedAll(Issued(a)));
    CountFlushesAppend([Executed(Begin)] + ExecutedAll(Issued(a)), tail);
    CountFlushesAppend([Executed(Begin)] + ExecutedAll(Issued(a)) + tail, HookEffects(hasHook, item));
    NoFlushAmongStatements(Issued(a));
    assert CountFlushes(tail) == if a.failure.None? then 1 else 0 by {
      CountFlushesAppend([tail[0]], tail[1..]);
      assert [tail[0]] + tail[1..] == tail;
    }
    assert CountFlushes(HookEffects(hasHook, item)) == 0;
  }

  class LockedDatabase {
    /** the current transaction id; `undefined` outside a transaction */
    var txnId: Option<string>
    /** `state.queued` */
    var queued: seq<QueuedItem>
    /** what was sent to the engine, to `flush` and to the logging hook, in order */
    var effects: seq<Effect>
    /** `lock.isBusy('txn_lock')`, set by whoever holds the async lock */
    var busy: bool
    /** whether `config.loggingHook` is set */
    const hasHook: bool

    constructor (hasHook: bool)
      ensures this.hasHook == hasHook
      ensures txnId == None && queued == [] && effects == [] && !busy
    {
      this.hasHook := hasHook;
      txnId, queued, effects, busy := None, [], [], false;
    }

    /** `run`: only the current transaction may write; anything else throws and sends nothing. */
    method Run(t: string, s: Statement) returns (r: Outcome<Error>)
      modifies this`effects
      ensures txnId == Some(t) ==> r == Pass && effects == old(effects) + [Executed(s)]
      ensures txnId != Some(t) ==> r == Fail(TransactionMismatch(txnId, t)) && effects == old(effects)
    {
      if txnId != Some(t) {
        return Fail(TransactionMismatch(txnId, t));
      }
      effects := effects + [Executed(s)];
      r := Pass;
    }

    /** The action's statements, each sent through `Run` under the current id. */
    method RunAll(t: string, ss: seq<Statement>)
      requires txnId == Some(t)
      modifies this`effects
      ensures effects == old(effects) + ExecutedAll(ss)
    {
      var i := 0;
      while i < |ss|
        invariant 0 <= i <= |ss|
        invariant effects == old(effects) + ExecutedAll(ss[..i])
      {
        var ok := Run(t, ss[i]);
        assert ExecutedAll(ss[..i + 1]) == ExecutedAll(ss[..i]) + [Executed(ss[i])];
        i := i + 1;
      }
      assert ss[..i] == ss;
    }

    /** The try/catch/finally shared by `txn` and `txnAsync`, entered with the item already queued. */
    method RunLocked(t: string, item: QueuedItem, a: Action) returns (r: Outcome<Error>)
      requires |queued| > 0
      modifies this`txnId, this`effects, this`queued
      ensures r == TxnOutcome(a)
      ensures txnId == None
      ensures queued == old(queued)[..|old(queued)| - 1]
      ensures effects == old(effects) + Transcript(a, hasHook, item)
    {
      txnId := Some(t);
      var ok := Run(t, Begin);
      RunAll(t, Issued(a));
      r := Conclude(t, a);
      Finally(item);
      AppendFour(old(effects), [Executed(Begin)], ExecutedAll(Issued(a)), Ending(a), HookEffects(hasHook, item));
    }

    /** COMMIT and flush when the action returned; ROLLBACK and the action's error when it threw. */
    method Conclude(t: string, a: Action) returns (r: Outcome<Error>)
      requires txnId == Some(t)
      modifies this`effects
      ensures r == TxnOutcome(a)
      ensures effects == old(effects) + Ending(a)
    {
      var ok;
      if a.failure.Some? {
        ok := Run(t, Rollback);
        r := Fail(a.failure.value.error);
      } else {
        ok := Run(t, Commit);
        effects := effects + [Flushed];
        r := Pass;
      }
    }

    /** The `finally` block: clear the id, pop the queue, call the logging hook. */
    method Finally(item: QueuedItem)
      requires |queued| > 0
      modifies this`txnId, this`effects, this`queued
      ensures txnId == None
      ensures queued == old(queued)[..|old(queued)| - 1]
      ensures effects == old(effects) + HookEffects(hasHook, item)
    {
      txnId := None;
      queued := queued[..|queued| - 1];
      if hasHook {
        effects := effects + [HookCalled(item)];
      }
    }

    /**
     * `txn`, the non-suspending entry point. When the lock is busy it throws
     * before BEGIN, leaving its queue entry behind; otherwise it runs the
     * action as a transaction.
     */
    method Txn(description: string, suffix: string, a: Action) returns (r: Outcome<Error>)
      modifies this`txnId, this`effects, this`queued
      ensures var t := TxnIdFor(description, suffix); var item := QueuedItem(t, description);
        if old(busy) then
          && r == Fail(TransactionBusy(old(txnId), t))
          && queued == old(queued) + [item]
          && txnId == old(txnId)
          && effects == old(effects)
        else
          && r == TxnOutcome(a)
          && txnId == None
          && queued == old(queued)
          && effects == old(effects) + Transcript(a, hasHook, item)
    {
      var t := TxnIdFor(description, suffix);
      var item := QueuedItem(t, description);
      queued := queued + [item];
      if busy {
        return Fail(TransactionBusy(txnId, t));
      }
      r := RunLocked(t, item, a);
    }

    /**
     * `txnAsync` from the moment the lock is granted: the lock is held while
     * the action runs and released afterwards.
     */
    method TxnAsync(description: string, suffix: string, a: Action) returns (r: Outcome<Error>)
      modifies this
      ensures var t := TxnIdFor(description, suffix); var item := QueuedItem(t, description);
        && r == TxnOutcome(a)
        && txnId == None
        && queued == old(queued)
        && effects == old(effects) + Transcript(a, hasHook, item)
        && !busy
    {
      var t := TxnIdFor(description, suffix);
      var item := QueuedItem(t, description);
      queued := queued + [item];
      busy := true;
      r := RunLocked(t, item, a);
      busy := false;
    }
  }
}
