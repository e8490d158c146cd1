/**
 * NHibernateContextCollection: the public twin of NHibernateSessionCollection.  It behaves
 * the same except that `Get` accepts any factory type and casts it to
 * IContextFactory<ISessionFactory>, every ObjectDisposedException names
 * "DbContextCollection", and the one-argument `Get<TDbContext>()` is not supported.
 */
module ContextCollections {
  import opened Wrappers
  import opened Provider
  import opened Exceptions
  import opened CollectionSpec

  class ContextCollection {
    /** The NHibernate runtime the sessions live in. */
    const engine: Engine
    const readOnly: bool
    const isolationLevel: Option<IsolationLevel>
    /** The dictionary of initialized sessions, keyed by factory type name... */
    var sessions: map<string, SessionId>
    /** ...and the order its keys were added in, which is the order `Values` enumerates them. */
    var order: seq<string>
    /** The transaction begun for each session, when the collection has an isolation level. */
    var transactions: map<SessionId, TxId>
    var disposed: bool
    var completed: bool

    ghost predicate Valid()
      reads this`order, this`sessions, this`transactions
    {
      && Enumerates(order, sessions)
      && (isolationLevel.None? ==> transactions == map[])
    }

    /** The steps of a Commit or Rollback loop over the current dictionary. */
    ghost function Steps(): seq<Step>
      reads this`order, this`sessions, this`transactions
      requires Valid()
    {
      StepsOf(order, sessions, transactions)
    }

    constructor (engine: Engine, readOnly: bool, isolationLevel: Option<IsolationLevel>)
      ensures Valid()
      ensures this.engine == engine && this.readOnly == readOnly && this.isolationLevel == isolationLevel
      ensures sessions == map[] && order == [] && transactions == map[]
      ensures !disposed && !completed
    {
      this.engine, this.readOnly, this.isolationLevel := engine, readOnly, isolationLevel;
      sessions, order, transactions := map[], [], map[];
      disposed, completed := false, false;
    }

    /** `Add(key, session)` to the dictionary, then FlushMode.Never on the session when read-only. */
    method Store(key: string, s: SessionId)
      requires Valid() && key !in sessions
      modifies this`sessions, this`order, engine`sessions
      ensures Valid()
      ensures sessions == old(sessions)[key := s] && order == old(order) + [key]
      ensures engine.sessions == if readOnly && s in old(engine.sessions)
                                 then old(engine.sessions)[s := old(engine.sessions)[s].(flushNever := true)]
                                 else old(engine.sessions)
    {
      EnumeratesAdd(order, sessions, key, s);
      sessions, order := sessions[key := s], order + [key];
      if readOnly {
        engine.SetFlushModeNever(s);
      }
    }

    /**
     * The first request for a key: open a session from the factory, bind it as the current
     * session, cache it, switch it to FlushMode.Never when read-only, and begin and record a
     * transaction when the collection has an isolation level.
     */
    method Open(key: string, origin: Origin) returns (r: Result<SessionId, Error>, ghost o: OpenOutcome)
      requires Valid() && key !in sessions
      modifies this`sessions, this`order, this`transactions, engine
      ensures Valid()
      ensures engine.log == old(engine.log) + OpenEvents(origin, isolationLevel, o)
      ensures r == OpenResult(origin, isolationLevel, o)
      ensures sessions == if Stored(o) then old(sessions)[key := o.session] else old(sessions)
      ensures order == if Stored(o) then old(order) + [key] else old(order)
      ensures transactions == if Recorded(isolationLevel, o) then old(transactions)[o.session := o.tx] else old(transactions)
      ensures Stored(o) ==> o.session in engine.sessions && engine.sessions[o.session].bound
                            && engine.sessions[o.session].flushNever == readOnly
    {
      var err, s;
      err, s, o := OpenAndBind(engine, origin);
      if err.Some? {
        return Err(err.value), o;
      }
      Store(key, s);
      if isolationLevel.None? {
        return Ok(s), o;
      }
      var begun, t := engine.BeginTransaction(s, isolationLevel);
      ghost var o1 := o;
      o := o.(beginOk := begun, tx := t);
      assert OpenEvents(origin, isolationLevel, o)
          == OpenEvents(origin, None, o1) + [Event(BeginTransaction(s, isolationLevel), begun)];
      if !begun {
        return Err(ProviderFailure(BeginTransaction(s, isolationLevel))), o;
      }
      transactions := transactions[s := t];
      r := Ok(s);
    }

    /**
     * `Get<TDbContext, TFactory>()`: the session cached under the factory type's name, or a
     * new one opened as `Open` describes, once the factory type has been cast to
     * IContextFactory<ISessionFactory>.
     */
    method Get(f: FactoryType) returns (r: Result<SessionId, Error>, ghost o: OpenOutcome)
      requires Valid()
      modifies this`sessions, this`order, this`transactions, engine
      ensures Valid()
      ensures old(disposed) ==>
                r == Err(ObjectDisposed("DbContextCollection")) && unchanged(this) && unchanged(engine)
      ensures !old(disposed) && SessionKey(f) in old(sessions) ==>
                r == Ok(old(sessions)[SessionKey(f)]) && unchanged(this) && unchanged(engine)
      ensures !old(disposed) && SessionKey(f) !in old(sessions) && !f.isContextFactory ==>
                r == Err(InvalidCast) && unchanged(this) && unchanged(engine)
      ensures !old(disposed) && SessionKey(f) !in old(sessions) && f.isContextFactory ==>
                && engine.log == old(engine.log) + OpenEvents(FromFactoryType(f), isolationLevel, o)
                && r == OpenResult(FromFactoryType(f), isolationLevel, o)
                && sessions == (if Stored(o) then old(sessions)[SessionKey(f) := o.session] else old(sessions))
                && order == (if Stored(o) then old(order) + [SessionKey(f)] else old(order))
                && transactions == (if Recorded(isolationLevel, o) then old(transactions)[o.session := o.tx]
                                    else old(transactions))
    {
      o := OpenOutcome(false, 0, false, false, 0);
      if disposed {
        return Err(ObjectDisposed("DbContextCollection")), o;
      }
      var key := SessionKey(f);
      if key in sessions {
        return Ok(sessions[key]), o;
      }
      if !f.isContextFactory {
        return Err(InvalidCast), o;
      }
      r, o := Open(key, FromFactoryType(f));
    }

    /** `GetFromFactory<TDbContextFactory>()`: `Get` with the session type fixed to ISession. */
    method GetFromFactory(f: FactoryType) returns (r: Result<SessionId, Error>, ghost o: OpenOutcome)
      requires Valid()
      modifies this`sessions, this`order, this`transactions, engine
      ensures Valid()
      ensures old(disposed) ==>
                r == Err(ObjectDisposed("DbContextCollection")) && unchanged(this) && unchanged(engine)
      ensures !old(disposed) && SessionKey(f) in old(sessions) ==>
                r == Ok(old(sessions)[SessionKey(f)]) && unchanged(this) && unchanged(engine)
      ensures !old(disposed) && SessionKey(f) !in old(sessions) && !f.isContextFactory ==>
                r == Err(InvalidCast) && unchanged(this) && unchanged(engine)
      ensures !old(disposed) && SessionKey(f) !in old(sessions) && f.isContextFactory ==>
                && engine.log == old(engine.log) + OpenEvents(FromFactoryType(f), isolationLevel, o)
                && r == OpenResult(FromFactoryType(f), isolationLevel, o)
                && sessions == (if Stored(o) then old(sessions)[SessionKey(f) := o.session] else old(sessions))
                && order == (if Stored(o) then old(order) + [SessionKey(f)] else old(order))
                && transactions == (if Recorded(isolationLevel, o) then old(transactions)[o.session := o.tx]
                                    else old(transactions))
    {
      r, o := Get(f);
    }

    /** `Get<TDbContext>()`: always throws NotSupportedException, whatever the state. */
    method GetWithoutFactory() returns (r: Result<SessionId, Error>)
      ensures r == Err(NotSupported)
    {
      r := Err(NotSupported);
    }

    /**
     * The `foreach` over the dictionary's values shared by Commit and Rollback: one
     * try block per session, recording the last exception captured.
     */
    method RunSteps(mode: Mode) returns (lastError: Option<Error>, ghost outs: seq<Outcome>)
      requires Valid()
      requires mode == Mode.Commit(readOnly) || mode == Mode.Rollback
      modifies engine`log, engine`transactions
      ensures |outs| == |order|
      ensures engine.log == old(engine.log) + RunEvents(mode, Steps(), outs)
      ensures lastError == RunError(mode, Steps(), outs)
    {
      lastError, outs := RunLoop(engine, mode, order, sessions, transactions);
    }

    /** What follows either loop: the transactions are forgotten and the collection is completed. */
    method Conclude()
      requires Valid()
      modifies this`transactions, this`completed
      ensures Valid() && transactions == map[] && completed
    {
      transactions, completed := map[], true;
    }

    /**
     * `Commit()`: flush every session unless read-only and commit and dispose every recorded
     * transaction, each in its own try block; then forget the transactions, mark the
     * collection completed and rethrow the last exception captured.  Returns 0.
     */
    method Commit() returns (r: Result<int, Error>, ghost outs: seq<Outcome>)
      requires Valid()
      modifies this`transactions, this`completed, engine`log, engine`transactions
      ensures Valid()
      ensures old(disposed) ==>
                r == Err(ObjectDisposed("DbContextCollection")) && transactions == old(transactions) && completed == old(completed)
                && engine.log == old(engine.log) && engine.transactions == old(engine.transactions)
      ensures !old(disposed) && old(completed) ==>
                r == Err(InvalidOperation(FinishTwice)) && transactions == old(transactions) && completed
                && engine.log == old(engine.log) && engine.transactions == old(engine.transactions)
      ensures !old(disposed) && !old(completed) ==>
                && |outs| == |old(order)|
                && engine.log == old(engine.log) + RunEvents(Mode.Commit(readOnly), old(Steps()), outs)
                && r == (match RunError(Mode.Commit(readOnly), old(Steps()), outs)
                         case Some(e) => Err(e)
                         case None => Ok(0))
                && transactions == map[] && completed
    {
      outs := [];
      if disposed {
        return Err(ObjectDisposed("DbContextCollection")), outs;
      }
      if completed {
        return Err(InvalidOperation(FinishTwice)), outs;
      }
      var lastError;
      if readOnly {
        lastError, outs := RunSteps(Mode.Commit(true));
      } else {
        lastError, outs := RunSteps(Mode.Commit(false));
      }
      Conclude();
      r := if lastError.Some? then Err(lastError.value) else Ok(0);
    }

    /**
     * `Rollback()`: roll back and dispose every recorded transaction, each in its own try
     * block; then forget the transactions, mark the collection completed and rethrow the
     * last exception captured.
     */
    method Rollback() returns (r: Result<(), Error>, ghost outs: seq<Outcome>)
      requires Valid()
      modifies this`transactions, this`completed, engine`log, engine`transactions
      ensures Valid()
      ensures old(disposed) ==>
                r == Err(ObjectDisposed("DbContextCollection")) && transactions == old(transactions) && completed == old(completed)
                && engine.log == old(engine.log) && engine.transactions == old(engine.transactions)
      ensures !old(disposed) && old(completed) ==>
                r == Err(InvalidOperation(FinishTwice)) && transactions == old(transactions) && completed
                && engine.log == old(engine.log) && engine.transactions == old(engine.transactions)
      ensures !old(disposed) && !old(completed) ==>
                && |outs| == |old(order)|
                && engine.log == old(engine.log) + RunEvents(Mode.Rollback, old(Steps()), outs)
                && (r.Err? <==> RunError(Mode.Rollback, old(Steps()), outs).Some?)
                && (r.Err? ==> r.error == RunError(Mode.Rollback, old(Steps()), outs).value)
                && transactions == map[] && completed
    {
      outs := [];
      if disposed {
        return Err(ObjectDisposed("DbContextCollection")), outs;
      }
      if completed {
        return Err(InvalidOperation(FinishTwice)), outs;
      }
      var lastError;
      lastError, outs := RunSteps(Mode.Rollback);
      Conclude();
      r := if lastError.Some? then Err(lastError.value) else Ok(());
    }

    /** The disposal loop: every session is disposed, in order, whatever each one does. */
    method DisposeSessions() returns (ghost oks: seq<bool>)
      requires Valid()
      modifies engine`log, engine`sessions
      ensures |oks| == |order|
      ensures engine.log == old(engine.log) + DisposeEvents(ValuesOf(order, sessions), oks)
    {
      ghost var ss := ValuesOf(order, sessions);
      ghost var log0 := engine.log;
      oks := [];
      var i := 0;
      while i < |order|
        invariant i <= |order| == |ss| && |oks| == i
        invariant engine.log == log0 + DisposeEvents(ss[..i], oks)
      {
        var ok := engine.DisposeSession(sessions[order[i]]);
        DisposeOneMore(ss, oks, ok, i);
        Associative(log0, DisposeEvents(ss[..i], oks), [Event(DisposeSession(ss[i]), ok)]);
        oks := oks + [ok];
        i := i + 1;
      }
      assert ss[..i] == ss;
    }

    /**
     * The start of `Dispose` for an uncompleted collection: Commit when read-only, Rollback
     * otherwise, with whatever either throws swallowed.
     */
    method Complete() returns (ghost finish: seq<Outcome>)
      requires Valid() && !disposed && !completed
      modifies this`transactions, this`completed, engine`log, engine`transactions
      ensures Valid() && completed && transactions == map[]
      ensures |finish| == |order|
      ensures readOnly ==> engine.log == old(engine.log) + RunEvents(Mode.Commit(true), old(Steps()), finish)
      ensures !readOnly ==> engine.log == old(engine.log) + RunEvents(Mode.Rollback, old(Steps()), finish)
    {
      if readOnly {
        var _, outs := Commit();
        finish := outs;
      } else {
        var _, outs := Rollback();
        finish := outs;
      }
    }

    /**
     * `Dispose()`: never throws.  An uncompleted collection is first committed when read-only
     * and rolled back otherwise, errors ignored; then every session is disposed, errors
     * ignored, and the dictionary is cleared.  A second call does nothing.
     */
    method Dispose() returns (ghost finish: seq<Outcome>, ghost oks: seq<bool>)
      requires Valid()
      modifies this`sessions, this`order, this`transactions, this`completed, this`disposed,
               engine`log, engine`transactions, engine`sessions
      ensures Valid() && disposed
      ensures old(disposed) ==>
                && engine.log == old(engine.log) && completed == old(completed)
                && sessions == old(sessions) && order == old(order) && transactions == old(transactions)
                && engine.sessions == old(engine.sessions) && engine.transactions == old(engine.transactions)
      ensures !old(disposed) ==> |oks| == |old(order)| && completed && sessions == map[] && order == []
      ensures !old(disposed) && old(completed) ==>
                && finish == [] && transactions == old(transactions)
                && engine.log == old(engine.log) + DisposeEvents(ValuesOf(old(order), old(sessions)), oks)
      ensures !old(disposed) && !old(completed) ==> |finish| == |old(order)| && transactions == map[]
      ensures !old(disposed) && !old(completed) && readOnly ==>
                engine.log == old(engine.log) + RunEvents(Mode.Commit(true), old(Steps()), finish)
                              + DisposeEvents(ValuesOf(old(order), old(sessions)), oks)
      ensures !old(disposed) && !old(completed) && !readOnly ==>
                engine.log == old(engine.log) + RunEvents(Mode.Rollback, old(Steps()), finish)
                              + DisposeEvents(ValuesOf(old(order), old(sessions)), oks)
    {
      finish, oks := [], [];
      if disposed {
        return;
      }
      ghost var steps := Steps();
      if !completed {
        finish := Complete();
      }
      assert order == old(order) && sessions == old(sessions);
      oks := DisposeSessions();
      sessions, order := map[], [];
      disposed := true;
    }
  }
}
