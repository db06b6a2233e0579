/**
 * `flushHelpers.createAsyncFlushQueue`: the trigger that the transaction
 * guard calls after every commit. It never lets two saves run at once, and
 * every trigger that arrives while a save runs is served by one follow-up
 * save, however many such triggers there were.
 *
 * The asynchronous `saveFn` is modelled by two events: a `Trigger` (a call of
 * the returned `run` function) and a `SaveCompleted` (the `finally` handler of
 * the outstanding save, which runs whether the save succeeded or failed).
 */
module FlushHelpers {

  /** The two closure variables of the queue. */
  datatype FlushState = FlushState(isRunning: bool, queued: bool)

  const Idle := FlushState(false, false)

  /** A pending follow-up only exists while a save runs. */
  predicate Inv(s: FlushState) {
    s.queued ==> s.isRunning
  }

  datatype FlushEvent = Trigger | SaveCompleted

  /** The effect of one event: the new state, and whether `saveFn` was called. */
  datatype StepResult = StepResult(state: FlushState, startedSave: bool)

  /** The `run` closure. */
  function RunStep(s: FlushState): StepResult {
    if s.isRunning then StepResult(s.(queued := true), false)
    else StepResult(s.(isRunning := true), true)
  }

  /** The `finally` handler of a save: go idle, then run again if a trigger was queued. */
  function CompletedStep(s: FlushState): StepResult {
    var s1 := s.(isRunning := false);
    if s1.queued then RunStep(s1.(queued := false)) else StepResult(s1, false)
  }

  function Step(s: FlushState, e: FlushEvent): StepResult {
    match e
    case Trigger => RunStep(s)
    case SaveCompleted => CompletedStep(s)
  }

  /** A completion only ever arrives for a save that is outstanding. */
  predicate WellFormed(s: FlushState, es: seq<FlushEvent>)
    decreases |es|
  {
    |es| == 0 ||
    ((es[0] == SaveCompleted ==> s.isRunning) && WellFormed(Step(s, es[0]).state, es[1..]))
  }

  /** The final state after a run of events, with the saves started and completed. */
  datatype Trace = Trace(final: FlushState, saves: nat, completions: nat)

  function Replay(s: FlushState, es: seq<FlushEvent>): Trace
    decreases |es|
  {
    if |es| == 0 then Trace(s, 0, 0)
    else
      var r := Step(s, es[0]);
      var t := Replay(r.state, es[1..]);
      Trace(t.final,
            t.saves + (if r.startedSave then 1 else 0),
            t.completions + (if es[0] == SaveCompleted then 1 else 0))
  }

  function Outstanding(s: FlushState): nat {
    if s.isRunning then 1 else 0
  }

  /** Every event keeps "queued implies running". */
  lemma StepKeepsInv(s: FlushState, e: FlushEvent)
    requires Inv(s)
    ensures Inv(Step(s, e).state)
  {
  }

  /**
   * Over any well-formed run of events, the saves started exceed the saves
   * completed by exactly the one that is running, if any: never more than one
   * save is outstanding, and "queued implies running" holds throughout.
   */
  lemma {:induction false} AtMostOneSaveOutstanding(s: FlushState, es: seq<FlushEvent>)
    requires Inv(s) && WellFormed(s, es)
    ensures Inv(Replay(s, es).final)
    ensures Replay(s, es).saves + Outstanding(s) == Replay(s, es).completions + Outstanding(Replay(s, es).final)
    decreases |es|
  {
    if |es| > 0 {
      StepKeepsInv(s, es[0]);
      AtMostOneSaveOutstanding(Step(s, es[0]).state, es[1..]);
    }
  }

  /** Starting from idle, the number of outstanding saves is at most one. */
  lemma FromIdleAtMostOne(es: seq<FlushEvent>)
    requires WellFormed(Idle, es)
    ensures Replay(Idle, es).saves <= Replay(Idle, es).completions + 1
    ensures Replay(Idle, es).saves == Replay(Idle, es).completions + Outstanding(Replay(Idle, es).final)
  {
    AtMostOneSaveOutstanding(Idle, es);
  }

  function Triggers(k: nat): (es: seq<FlushEvent>)
    ensures |es| == k && forall i :: 0 <= i < k ==> es[i] == Trigger
  {
    if k == 0 then [] else [Trigger] + Triggers(k - 1)
  }

  /** While a save runs, triggers start nothing and only leave a follow-up queued. */
  lemma {:induction false} TriggersWhileRunning(s: FlushState, k: nat)
    requires s.isRunning
    ensures Replay(s, Triggers(k)) == Trace(s.(queued := s.queued || k > 0), 0, 0)
    ensures WellFormed(s, Triggers(k))
    decreases k
  {
    if k > 0 {
      TriggersWhileRunning(s.(queued := true), k - 1);
      assert Triggers(k)[1..] == Triggers(k - 1);
    }
  }

  /**
   * Any k >= 1 triggers during one save, followed by its completion, start
   * exactly one follow-up save, which is then running with nothing queued.
   */
  lemma {:induction false} TriggersCoalesce(s: FlushState, k: nat)
    requires s.isRunning && k >= 1
    ensures WellFormed(s, Triggers(k) + [SaveCompleted])
    ensures Replay(s, Triggers(k) + [SaveCompleted]) == Trace(FlushState(true, false), 1, 1)
  {
    ReplayAppend(s, Triggers(k), SaveCompleted);
    TriggersWhileRunning(s, k);
  }

  /** With no trigger during a save (and none queued), its completion returns to idle. */
  lemma CompletionWithoutTriggersIdles(s: FlushState)
    requires s.isRunning && !s.queued
    ensures Replay(s, [SaveCompleted]) == Trace(Idle, 0, 1)
  {
  }

  /** Replaying one more event after a run of events. */
  lemma {:induction false} ReplayAppend(s: FlushState, es: seq<FlushEvent>, e: FlushEvent)
    ensures WellFormed(s, es + [e]) <==>
      WellFormed(s, es) && (e == SaveCompleted ==> Replay(s, es).final.isRunning)
    ensures var t := Replay(s, es); var r := Step(t.final, e);
      Replay(s, es + [e]) == Trace(r.state, t.saves + (if r.startedSave then 1 else 0),
                                   t.completions + (if e == SaveCompleted then 1 else 0))
    decreases |es|
  {
    if |es| > 0 {
      assert (es + [e])[1..] == es[1..] + [e];
      ReplayAppend(Step(s, es[0]).state, es[1..], e);
    }
  }

  /** The queue itself, with counters of the saves started and completed. */
  class FlushQueue {
    var isRunning: bool
    var queued: bool
    /** calls of `saveFn` so far */
    var saves: nat
    /** `finally` handlers that have run so far */
    var completions: nat

    ghost predicate Valid()
      reads this
    {
      Inv(State()) && saves == completions + Outstanding(State())
    }

    function State(): FlushState
      reads this
    {
      FlushState(isRunning, queued)
    }

    constructor ()
      ensures Valid() && State() == Idle && saves == 0 && completions == 0
    {
      isRunning, queued := false, false;
      saves, completions := 0, 0;
    }

    /** A call of `run`: start a save when idle, otherwise only note that one is wanted. */
    method Trigger() returns (startedSave: bool)
      requires Valid()
      modifies this
      ensures Valid()
      ensures StepResult(State(), startedSave) == Step(old(State()), FlushEvent.Trigger)
      ensures startedSave <==> !old(isRunning)
      ensures saves == old(saves) + (if startedSave then 1 else 0) && completions == old(completions)
    {
      if isRunning {
        queued := true;
        startedSave := false;
        return;
      }
      isRunning := true;
      saves := saves + 1;
      startedSave := true;
    }

    /** The `finally` handler of the outstanding save, reached on success and on failure. */
    method SaveCompleted() returns (startedSave: bool)
      requires Valid() && isRunning
      modifies this
      ensures Valid()
      ensures StepResult(State(), startedSave) == Step(old(State()), FlushEvent.SaveCompleted)
      ensures startedSave <==> old(queued)
      ensures saves == old(saves) + (if startedSave then 1 else 0) && completions == old(completions) + 1
    {
      isRunning := false;
      completions := completions + 1;
      if queued {
        queued := false;
        startedSave := Trigger();
      } else {
        startedSave := false;
      }
    }
  }
}
