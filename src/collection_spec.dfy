/**
 * What NHibernateSessionCollection and NHibernateContextCollection have in common: how
 * `Get` opens a session, the per-session steps of their best-effort `Commit` and `Rollback`
 * loops and of the disposal loop, and properties of whole loops, proved once for both.
 *
 * A loop is described by the calls it makes to NHibernate, in order, as a function of the
 * sessions it visits and of what NHibernate answered to each call (an `Outcome` per session).
 */
module CollectionSpec {
  import opened Wrappers
  import opened Provider
  import opened Exceptions

  /** `GetValueOrDefault(dictionary, key)`: the entry for `key`, or None (C#'s default null). */
  function GetValueOrDefault<K, V>(m: map<K, V>, k: K): (r: Option<V>)
    ensures r.Some? <==> k in m
    ensures r.Some? ==> r.value == m[k]
  {
    if k in m then Some(m[k]) else None
  }

  /**
   * The dictionary of initialized sessions as a map plus the order its keys were added in,
   * which is the order `Values` enumerates them (nothing is ever removed, only cleared).
   */
  ghost predicate Enumerates(order: seq<string>, sessions: map<string, SessionId>) {
    && (forall i, j :: 0 <= i < j < |order| ==> order[i] != order[j])
    && (forall k :: k in sessions <==> k in order)
  }

  /** Adding a new key at the end keeps the enumeration order in step with the dictionary. */
  lemma EnumeratesAdd(order: seq<string>, sessions: map<string, SessionId>, key: string, s: SessionId)
    requires Enumerates(order, sessions) && key !in sessions
    ensures Enumerates(order + [key], sessions[key := s])
  {
    var order' := order + [key];
    forall k ensures k in sessions[key := s] <==> k in order' {
      assert k in order' <==> k in order || k == key;
    }
  }

  /* ---------------------------------------------------------------- Get */

  /**
   * The dictionary key of a factory type: its simple name, `typeof(TFactory).Name`, so two
   * factory types of the same name in different namespaces share one entry.
   */
  function SessionKey(f: FactoryType): string {
    f.name
  }

  /** What NHibernate answered while `Get` opened a session for a new key. */
  datatype OpenOutcome = OpenOutcome(openOk: bool, session: SessionId, bindOk: bool, beginOk: bool, tx: TxId)

  /**
   * The calls `Get` makes for a key it has not seen: open a session, bind it as the current
   * session, and begin a transaction only when the collection has an isolation level.  The
   * block stops at the first call that throws.
   */
  function OpenEvents(origin: Origin, isolation: Option<IsolationLevel>, o: OpenOutcome): (evs: seq<Event>)
    ensures evs != [] && evs[0] == Event(OpenSession(origin), o.openOk)
    ensures forall i :: 0 <= i < |evs| - 1 ==> evs[i].ok
    ensures |evs| <= 3
    ensures |evs| == 3 <==> isolation.Some? && o.openOk && o.bindOk
    ensures |evs| == 3 ==> evs[2] == Event(BeginTransaction(o.session, isolation), o.beginOk)
  {
    [Event(OpenSession(origin), o.openOk)]
    + if !o.openOk then []
      else [Event(Bind(o.session), o.bindOk)]
           + if !o.bindOk || isolation.None? then [] else [Event(BeginTransaction(o.session, isolation), o.beginOk)]
  }

  /** The session is stored in the dictionary exactly when it was opened and bound. */
  predicate Stored(o: OpenOutcome) {
    o.openOk && o.bindOk
  }

  /** A transaction is recorded exactly when the session was stored and one was begun. */
  predicate Recorded(isolation: Option<IsolationLevel>, o: OpenOutcome) {
    Stored(o) && isolation.Some? && o.beginOk
  }

  /** What `Get` returns for a key it has not seen: the session, or the exception of the call that threw. */
  function OpenResult(origin: Origin, isolation: Option<IsolationLevel>, o: OpenOutcome): (r: Result<SessionId, Error>)
    ensures r.Ok? <==> Stored(o) && (isolation.None? || o.beginOk)
    ensures r.Ok? ==> r.value == o.session
    ensures r.Err? ==> r.error.ProviderFailure? && Event(r.error.call, false) in OpenEvents(origin, isolation, o)
  {
    var evs := OpenEvents(origin, isolation, o);
    match FailureOf(evs)
    case Some(e) => Err(e)
    case None => Ok(o.session)
  }

  /* ------------------------------------------------- Commit and Rollback */

  /** One session visited by a Commit or Rollback loop, with the transaction recorded for it. */
  datatype Step = Step(session: SessionId, transaction: Option<TxId>)

  /** The loop's steps: the sessions in dictionary order, each with its recorded transaction. */
  function StepsOf(keys: seq<string>, sessions: map<string, SessionId>, txs: map<SessionId, TxId>): (steps: seq<Step>)
    requires forall k :: k in keys ==> k in sessions
    ensures |steps| == |keys|
    ensures forall i :: 0 <= i < |keys| ==> steps[i] == Step(sessions[keys[i]], GetValueOrDefault(txs, sessions[keys[i]]))
    decreases |keys|
  {
    if keys == [] then []
    else
      var k := keys[|keys| - 1];
      StepsOf(keys[..|keys| - 1], sessions, txs) + [Step(sessions[k], GetValueOrDefault(txs, sessions[k]))]
  }

  /** Which loop runs: Commit (which flushes unless the collection is read-only) or Rollback. */
  datatype Mode = Commit(readOnly: bool) | Rollback

  /** What NHibernate answered at one step: to Flush, to Commit/Rollback, to Dispose of the transaction. */
  datatype Outcome = Outcome(flushOk: bool, endOk: bool, disposeOk: bool)

  function EndCall(mode: Mode, t: TxId): Call {
    if mode.Commit? then CommitTransaction(t) else RollbackTransaction(t)
  }

  /** True if `c` is a call on the step's session or on its recorded transaction. */
  predicate Touches(c: Call, st: Step) {
    match c
    case Flush(s) => s == st.session
    case CommitTransaction(t) => st.transaction == Some(t)
    case RollbackTransaction(t) => st.transaction == Some(t)
    case DisposeTransaction(t) => st.transaction == Some(t)
    case _ => false
  }

  function TransactionEvents(mode: Mode, tx: Option<TxId>, o: Outcome): seq<Event> {
    match tx
    case None => []
    case Some(t) =>
      [Event(EndCall(mode, t), o.endOk)] + if o.endOk then [Event(DisposeTransaction(t), o.disposeOk)] else []
  }

  /**
   * The calls of one iteration of the loop body (one try block): Commit flushes the session
   * unless read-only, then commits and disposes the recorded transaction; Rollback only rolls
   * back and disposes the recorded transaction.  The block stops at its first throwing call.
   */
  function StepEvents(mode: Mode, st: Step, o: Outcome): (evs: seq<Event>)
    ensures |evs| <= 3
    ensures mode == Commit(false) ==> evs != [] && evs[0] == Event(Flush(st.session), o.flushOk)
    ensures mode == Commit(false) && !o.flushOk ==> evs == [Event(Flush(st.session), false)]
    ensures mode.Rollback? && st.transaction.None? ==> evs == []
  {
    if mode == Commit(false) then
      [Event(Flush(st.session), o.flushOk)] + if o.flushOk then TransactionEvents(mode, st.transaction, o) else []
    else
      TransactionEvents(mode, st.transaction, o)
  }

  /** An iteration stops at its first throwing call, and only touches its own session and transaction. */
  lemma StepEventsShape(mode: Mode, st: Step, o: Outcome)
    ensures forall i :: 0 <= i < |StepEvents(mode, st, o)| - 1 ==> StepEvents(mode, st, o)[i].ok
    ensures forall e :: e in StepEvents(mode, st, o) ==> Touches(e.call, st)
  {
  }

  /** All calls of a loop over `steps`, in order. */
  function RunEvents(mode: Mode, steps: seq<Step>, outs: seq<Outcome>): seq<Event>
    requires |outs| == |steps|
    decreases |steps|
  {
    if steps == [] then []
    else RunEvents(mode, steps[..|steps| - 1], outs[..|outs| - 1]) + StepEvents(mode, steps[|steps| - 1], outs[|outs| - 1])
  }

  /** The exception each iteration captured, if any. */
  function RunErrors(mode: Mode, steps: seq<Step>, outs: seq<Outcome>): (errs: seq<Option<Error>>)
    requires |outs| == |steps|
    ensures |errs| == |steps|
  {
    seq(|steps|, i requires 0 <= i < |steps| => FailureOf(StepEvents(mode, steps[i], outs[i])))
  }

  /**
   * `lastError` after the loop: every capture overwrites it, so it is the exception of the
   * last iteration that threw.
   */
  function LastError(errs: seq<Option<Error>>): Option<Error>
    decreases |errs|
  {
    if errs == [] then None
    else if errs[|errs| - 1].Some? then errs[|errs| - 1]
    else LastError(errs[..|errs| - 1])
  }

  /** Nothing is rethrown exactly when no iteration captured anything. */
  lemma {:induction false} LastErrorNoneIffNoCapture(errs: seq<Option<Error>>)
    ensures LastError(errs).None? <==> forall i :: 0 <= i < |errs| ==> errs[i].None?
    decreases |errs|
  {
    if errs != [] {
      var n := |errs| - 1;
      LastErrorNoneIffNoCapture(errs[..n]);
      assert forall i :: 0 <= i < n ==> errs[..n][i] == errs[i];
    }
  }

  /** What is rethrown is a captured exception after which nothing else was captured. */
  lemma {:induction false} LastErrorIsLastCapture(errs: seq<Option<Error>>)
    requires LastError(errs).Some?
    ensures exists i :: 0 <= i < |errs| && errs[i] == LastError(errs) && forall j :: i < j < |errs| ==> errs[j].None?
    decreases |errs|
  {
    var n := |errs| - 1;
    if errs[n].Some? {
      assert errs[n] == LastError(errs);
    } else {
      LastErrorIsLastCapture(errs[..n]);
      var i :| 0 <= i < n && errs[..n][i] == LastError(errs[..n]) && forall j :: i < j < n ==> errs[..n][j].None?;
      assert errs[i] == LastError(errs);
      assert forall j :: i < j < |errs| ==> errs[j].None? by {
        forall j | i < j < |errs| ensures errs[j].None? {
          if j < n {
            assert errs[..n][j] == errs[j];
          }
        }
      }
    }
  }

  /** The exception a Commit or Rollback rethrows after its loop, if any. */
  function RunError(mode: Mode, steps: seq<Step>, outs: seq<Outcome>): Option<Error>
    requires |outs| == |steps|
  {
    LastError(RunErrors(mode, steps, outs))
  }

  /* ------------------------------------------------------------- Dispose */

  /** `Values` of the dictionary: the sessions in the order their keys were added. */
  function ValuesOf(order: seq<string>, sessions: map<string, SessionId>): (vs: seq<SessionId>)
    requires forall k :: k in order ==> k in sessions
  {
    seq(|order|, i requires 0 <= i < |order| => sessions[order[i]])
  }

  /** The disposal loop: `Dispose()` on every session, in order, whatever each one did. */
  function DisposeEvents(sessions: seq<SessionId>, oks: seq<bool>): (evs: seq<Event>)
    requires |oks| == |sessions|
    decreases |sessions|
  {
    if sessions == [] then []
    else DisposeEvents(sessions[..|sessions| - 1], oks[..|oks| - 1]) + [Event(DisposeSession(sessions[|sessions| - 1]), oks[|oks| - 1])]
  }

  /* -------------------------------------------------------------- Lemmas */

  /** Best effort: every session is disposed, in order, whatever the others did. */
  lemma {:induction false} EverySessionDisposed(sessions: seq<SessionId>, oks: seq<bool>)
    requires |oks| == |sessions|
    ensures |DisposeEvents(sessions, oks)| == |sessions|
    ensures forall i :: 0 <= i < |sessions| ==> DisposeEvents(sessions, oks)[i] == Event(DisposeSession(sessions[i]), oks[i])
    decreases |sessions|
  {
    if sessions != [] {
      var n := |sessions| - 1;
      EverySessionDisposed(sessions[..n], oks[..n]);
    }
  }

  lemma DisposeOneMore(ss: seq<SessionId>, oks: seq<bool>, ok: bool, i: nat)
    requires |oks| == i < |ss|
    ensures DisposeEvents(ss[..i + 1], oks + [ok]) == DisposeEvents(ss[..i], oks) + [Event(DisposeSession(ss[i]), ok)]
  {
    assert ss[..i + 1][..i] == ss[..i] && (oks + [ok])[..i] == oks;
  }

  lemma RunEventsSnoc(mode: Mode, steps: seq<Step>, outs: seq<Outcome>, st: Step, o: Outcome)
    requires |outs| == |steps|
    ensures RunEvents(mode, steps + [st], outs + [o]) == RunEvents(mode, steps, outs) + StepEvents(mode, st, o)
  {
    var s1, o1 := steps + [st], outs + [o];
    assert s1[..|s1| - 1] == steps && o1[..|o1| - 1] == outs;
  }

  lemma {:induction false} RunEventsAppend(mode: Mode, a: seq<Step>, oa: seq<Outcome>, b: seq<Step>, ob: seq<Outcome>)
    requires |oa| == |a| && |ob| == |b|
    ensures RunEvents(mode, a + b, oa + ob) == RunEvents(mode, a, oa) + RunEvents(mode, b, ob)
    decreases |b|
  {
    if b == [] {
      assert a + b == a && oa + ob == oa;
    } else {
      var n := |b| - 1;
      SplitLast(a, b);
      SplitLast(oa, ob);
      SplitLast([], b);
      SplitLast([], ob);
      RunEventsAppend(mode, a, oa, b[..n], ob[..n]);
      RunEventsSnoc(mode, a + b[..n], oa + ob[..n], b[n], ob[n]);
      RunEventsSnoc(mode, b[..n], ob[..n], b[n], ob[n]);
      Associative(RunEvents(mode, a, oa), RunEvents(mode, b[..n], ob[..n]), StepEvents(mode, b[n], ob[n]));
    }
  }

  lemma Associative<T>(x: seq<T>, y: seq<T>, z: seq<T>)
    ensures x + (y + z) == (x + y) + z
  {
  }

  lemma SplitLast<T>(a: seq<T>, b: seq<T>)
    requires b != []
    ensures a + b == (a + b[..|b| - 1]) + [b[|b| - 1]]
  {
  }

  /**
   * Best effort: the calls of step `i` are made, unchanged, whatever NHibernate answered at
   * the steps before it; a failure earlier in the loop skips nothing later.
   */
  lemma EveryStepAttempted(mode: Mode, steps: seq<Step>, outs: seq<Outcome>, i: nat)
    requires |outs| == |steps| && i < |steps|
    ensures RunEvents(mode, steps, outs)
         == RunEvents(mode, steps[..i], outs[..i]) + StepEvents(mode, steps[i], outs[i])
            + RunEvents(mode, steps[i + 1..], outs[i + 1..])
  {
    var a, oa := steps[..i + 1], outs[..i + 1];
    assert a[..i] == steps[..i] && oa[..i] == outs[..i];
    assert RunEvents(mode, a, oa) == RunEvents(mode, steps[..i], outs[..i]) + StepEvents(mode, steps[i], outs[i]);
    assert steps == a + steps[i + 1..] && outs == oa + outs[i + 1..];
    RunEventsAppend(mode, a, oa, steps[i + 1..], outs[i + 1..]);
  }

  /** A read/write Commit flushes every session, including those after a failing one. */
  lemma WritableCommitFlushesEverySession(steps: seq<Step>, outs: seq<Outcome>, i: nat)
    requires |outs| == |steps| && i < |steps|
    ensures Event(Flush(steps[i].session), outs[i].flushOk) in RunEvents(Commit(false), steps, outs)
  {
    EveryStepAttempted(Commit(false), steps, outs, i);
    assert StepEvents(Commit(false), steps[i], outs[i])[0] == Event(Flush(steps[i].session), outs[i].flushOk);
  }

  /** Only a read/write Commit flushes: a read-only Commit and a Rollback never do. */
  lemma {:induction false} OnlyWritableCommitFlushes(mode: Mode, steps: seq<Step>, outs: seq<Outcome>)
    requires |outs| == |steps| && mode != Commit(false)
    ensures forall e :: e in RunEvents(mode, steps, outs) ==> !e.call.Flush?
    decreases |steps|
  {
    if steps != [] {
      var n := |steps| - 1;
      OnlyWritableCommitFlushes(mode, steps[..n], outs[..n]);
      assert RunEvents(mode, steps, outs) == RunEvents(mode, steps[..n], outs[..n]) + StepEvents(mode, steps[n], outs[n]);
    }
  }

  /**
   * Every call a Rollback makes is a rollback or dispose of a transaction recorded for one of
   * the sessions: sessions without a recorded transaction are left alone.
   */
  lemma {:induction false} RollbackTouchesOnlyRecordedTransactions(steps: seq<Step>, outs: seq<Outcome>)
    requires |outs| == |steps|
    ensures forall e :: e in RunEvents(Rollback, steps, outs) ==>
              (e.call.RollbackTransaction? || e.call.DisposeTransaction?)
              && exists i :: 0 <= i < |steps| && steps[i].transaction == Some(e.call.tx)
    decreases |steps|
  {
    if steps != [] {
      var n := |steps| - 1;
      RollbackTouchesOnlyRecordedTransactions(steps[..n], outs[..n]);
      StepEventsShape(Rollback, steps[n], outs[n]);
      forall e | e in StepEvents(Rollback, steps[n], outs[n])
        ensures (e.call.RollbackTransaction? || e.call.DisposeTransaction?) && steps[n].transaction == Some(e.call.tx)
      {
        assert Touches(e.call, steps[n]);
      }
      forall e | e in RunEvents(Rollback, steps[..n], outs[..n])
        ensures exists i :: 0 <= i < |steps| && steps[i].transaction == Some(e.call.tx)
      {
        var i :| 0 <= i < n && steps[..n][i].transaction == Some(e.call.tx);
        assert steps[i] == steps[..n][i];
      }
    }
  }

  /** A Rollback neither flushes nor commits anything. */
  lemma RollbackNeverFlushesOrCommits(steps: seq<Step>, outs: seq<Outcome>)
    requires |outs| == |steps|
    ensures forall e :: e in RunEvents(Rollback, steps, outs) ==> !e.call.Flush? && !e.call.CommitTransaction?
  {
    RollbackTouchesOnlyRecordedTransactions(steps, outs);
  }

  lemma LastErrorSnoc(errs: seq<Option<Error>>, e: Option<Error>)
    ensures LastError(errs + [e]) == if e.Some? then e else LastError(errs)
  {
    assert (errs + [e])[..|errs|] == errs;
  }

  /** One more iteration of a loop: its calls come last and its exception, if any, is the last one. */
  lemma RunOneMore(mode: Mode, steps: seq<Step>, outs: seq<Outcome>, o: Outcome, i: nat)
    requires |outs| == i < |steps|
    ensures RunEvents(mode, steps[..i + 1], outs + [o]) == RunEvents(mode, steps[..i], outs) + StepEvents(mode, steps[i], o)
    ensures RunError(mode, steps[..i + 1], outs + [o])
         == if FailureOf(StepEvents(mode, steps[i], o)).Some? then FailureOf(StepEvents(mode, steps[i], o))
            else RunError(mode, steps[..i], outs)
  {
    assert steps[..i + 1] == steps[..i] + [steps[i]];
    RunEventsSnoc(mode, steps[..i], outs, steps[i], o);
    RunErrorsSnoc(mode, steps[..i + 1], outs + [o]);
    assert (outs + [o])[..i] == outs;
    LastErrorSnoc(RunErrors(mode, steps[..i], outs), FailureOf(StepEvents(mode, steps[i], o)));
  }

  /** The exception rethrown is that of the last iteration that threw, not the first. */
  lemma RunErrorIsLastFailure(mode: Mode, steps: seq<Step>, outs: seq<Outcome>)
    requires |outs| == |steps|
    ensures RunError(mode, steps, outs).None? <==>
            forall i :: 0 <= i < |steps| ==> FailureOf(StepEvents(mode, steps[i], outs[i])).None?
    ensures RunError(mode, steps, outs).Some? ==>
            exists i :: 0 <= i < |steps| && RunError(mode, steps, outs) == FailureOf(StepEvents(mode, steps[i], outs[i]))
                      && forall j :: i < j < |steps| ==> FailureOf(StepEvents(mode, steps[j], outs[j])).None?
  {
    var errs := RunErrors(mode, steps, outs);
    assert forall i :: 0 <= i < |steps| ==> errs[i] == FailureOf(StepEvents(mode, steps[i], outs[i]));
    LastErrorNoneIffNoCapture(errs);
    if LastError(errs).Some? {
      LastErrorIsLastCapture(errs);
    }
  }

  /** An iteration captures nothing exactly when none of its calls threw. */
  lemma StepErrorIffSomeCallFailed(mode: Mode, st: Step, o: Outcome)
    ensures FailureOf(StepEvents(mode, st, o)).None? <==> forall e :: e in StepEvents(mode, st, o) ==> e.ok
  {
  }

  lemma RunErrorsSnoc(mode: Mode, steps: seq<Step>, outs: seq<Outcome>)
    requires |outs| == |steps| && steps != []
    ensures RunErrors(mode, steps, outs)
         == RunErrors(mode, steps[..|steps| - 1], outs[..|outs| - 1]) + [FailureOf(StepEvents(mode, steps[|steps| - 1], outs[|outs| - 1]))]
  {
  }

  /** A loop rethrows nothing exactly when none of its calls threw. */
  lemma {:induction false} RunErrorIffSomeCallFailed(mode: Mode, steps: seq<Step>, outs: seq<Outcome>)
    requires |outs| == |steps|
    ensures RunError(mode, steps, outs).None? <==> forall e :: e in RunEvents(mode, steps, outs) ==> e.ok
    decreases |steps|
  {
    if steps != [] {
      var n := |steps| - 1;
      var evs := StepEvents(mode, steps[n], outs[n]);
      RunErrorIffSomeCallFailed(mode, steps[..n], outs[..n]);
      RunErrorsSnoc(mode, steps, outs);
      LastErrorSnoc(RunErrors(mode, steps[..n], outs[..n]), FailureOf(evs));
      StepErrorIffSomeCallFailed(mode, steps[n], outs[n]);
      assert RunEvents(mode, steps, outs) == RunEvents(mode, steps[..n], outs[..n]) + evs;
    }
  }

  /* ------------------------------------------------- Per-session steps */

  /** The first two calls of `Get` for a new key: open the session and bind it as the current one. */
  method OpenAndBind(engine: Engine, origin: Origin) returns (err: Option<Error>, s: SessionId, ghost o: OpenOutcome)
    modifies engine`log, engine`sessions, engine`next
    ensures o.session == s && !o.beginOk && o.tx == 0
    ensures engine.log == old(engine.log) + OpenEvents(origin, None, o)
    ensures err == FailureOf(OpenEvents(origin, None, o))
    ensures err.None? <==> Stored(o)
    ensures Stored(o) ==> s in engine.sessions && engine.sessions[s].bound && !engine.sessions[s].flushNever
  {
    var isOpen;
    isOpen, s := engine.OpenSession(origin);
    if !isOpen {
      o := OpenOutcome(false, s, false, false, 0);
      assert OpenEvents(origin, None, o) == [Event(OpenSession(origin), false)];
      return Some(ProviderFailure(OpenSession(origin))), s, o;
    }
    ghost var log1 := engine.log;
    var bound := engine.Bind(s);
    o := OpenOutcome(true, s, bound, false, 0);
    assert OpenEvents(origin, None, o) == [Event(OpenSession(origin), true), Event(Bind(s), bound)];
    Associative(old(engine.log), [Event(OpenSession(origin), true)], [Event(Bind(s), bound)]);
    err := if bound then None else Some(ProviderFailure(Bind(s)));
  }



  /** One iteration of Commit's loop body, for the session of `st`. */
  method CommitSession(engine: Engine, readOnly: bool, st: Step) returns (err: Option<Error>, ghost o: Outcome)
    modifies engine`log, engine`transactions
    ensures engine.log == old(engine.log) + StepEvents(Commit(readOnly), st, o)
    ensures err == FailureOf(StepEvents(Commit(readOnly), st, o))
  {
    o, err := Outcome(true, true, true), None;
    if !readOnly {
      var flushed := engine.Flush(st.session);
      o := o.(flushOk := flushed);
      if !flushed {
        err := Some(ProviderFailure(Flush(st.session)));
        return;
      }
    }
    if st.transaction.None? {
      return;
    }
    var t := st.transaction.value;
    var committed := engine.CommitTransaction(t);
    o := o.(endOk := committed);
    if !committed {
      err := Some(ProviderFailure(CommitTransaction(t)));
      return;
    }
    var disposed := engine.DisposeTransaction(t);
    o := o.(disposeOk := disposed);
    if !disposed {
      err := Some(ProviderFailure(DisposeTransaction(t)));
    }
  }

  /** One iteration of Rollback's loop body, for the session of `st`. */
  method RollbackSession(engine: Engine, st: Step) returns (err: Option<Error>, ghost o: Outcome)
    modifies engine`log, engine`transactions
    ensures engine.log == old(engine.log) + StepEvents(Rollback, st, o)
    ensures err == FailureOf(StepEvents(Rollback, st, o))
  {
    o, err := Outcome(true, true, true), None;
    if st.transaction.Some? {
      var t := st.transaction.value;
      var rolledBack := engine.RollbackTransaction(t);
      o := o.(endOk := rolledBack);
      if !rolledBack {
        err := Some(ProviderFailure(RollbackTransaction(t)));
        return;
      }
      var disposed := engine.DisposeTransaction(t);
      o := o.(disposeOk := disposed);
      if !disposed {
        err := Some(ProviderFailure(DisposeTransaction(t)));
      }
    }
  }

  /**
   * The body of Commit's or Rollback's loop over the dictionary's values: every session is
   * visited whatever the earlier ones did, and the last exception captured is kept.
   */
  method RunLoop(engine: Engine, mode: Mode, keys: seq<string>, sessions: map<string, SessionId>,
                 txs: map<SessionId, TxId>) returns (lastError: Option<Error>, ghost outs: seq<Outcome>)
    requires forall k :: k in keys ==> k in sessions
    modifies engine`log, engine`transactions
    ensures |outs| == |keys|
    ensures engine.log == old(engine.log) + RunEvents(mode, StepsOf(keys, sessions, txs), outs)
    ensures lastError == RunError(mode, StepsOf(keys, sessions, txs), outs)
  {
    ghost var steps := StepsOf(keys, sessions, txs);
    ghost var log0 := engine.log;
    outs := [];
    lastError := None;
    var i := 0;
    while i < |keys|
      invariant i <= |keys| && |outs| == i
      invariant engine.log == log0 + RunEvents(mode, steps[..i], outs)
      invariant lastError == RunError(mode, steps[..i], outs)
    {
      var s := sessions[keys[i]];
      var step := Step(s, GetValueOrDefault(txs, s));
      assert step == steps[i];
      var err;
      ghost var o;
      if mode.Commit? {
        err, o := CommitSession(engine, mode.readOnly, step);
      } else {
        err, o := RollbackSession(engine, step);
      }
      RunOneMore(mode, steps, outs, o, i);
      Associative(log0, RunEvents(mode, steps[..i], outs), StepEvents(mode, step, o));
      lastError := if err.Some? then err else lastError;
      outs := outs + [o];
      i := i + 1;
    }
    assert steps[..i] == steps;
  }
}
