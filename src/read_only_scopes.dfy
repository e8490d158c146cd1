/**
 * SessionReadOnlyScope: a SessionScope that is always read-only.  It exposes the wrapped
 * scope's session and disposal but no SaveChanges, so it only completes through Dispose,
 * which commits a read-only scope.
 */
module ReadOnlyScopes {
  import opened Wrappers
  import opened Provider
  import opened Exceptions
  import opened ScopeSpec
  import opened Scopes

  /** The full constructor's arguments to the wrapped scope: read-only whatever the caller asks. */
  function ReadOnlyArgs(joining: JoinOption, isolationLevel: Option<IsolationLevel>,
                        factory: Option<SessionFactory>, interceptor: Option<Interceptor>): (r: ScopeArgs)
    ensures r.readOnly
    ensures r.joining == joining && r.isolationLevel == isolationLevel
    ensures r.factory == factory && r.interceptor == interceptor
    // a read-only scope is never refused for nesting inside a read-only one
    ensures forall amb :: Admit(r, amb) != Err(InvalidOperation(NestReadWriteInReadOnly))
  {
    ScopeArgs(joining, true, isolationLevel, factory, interceptor)
  }

  /** `SessionReadOnlyScope(sessionFactory)`: joins the ambient scope, no isolation level. */
  function JoiningReadOnlyArgs(factory: Option<SessionFactory>): (r: ScopeArgs)
    ensures r.readOnly && r.joining == JoinExisting && r.isolationLevel.None? && r.factory == factory
    ensures factory.Some? ==> forall amb :: Admit(r, amb) == Ok(amb.Some?)
  {
    ReadOnlyArgs(JoinExisting, None, factory, None)
  }

  /** `SessionReadOnlyScope(isolationLevel, sessionFactory)`: always a new scope. */
  function IsolatedReadOnlyArgs(level: IsolationLevel, factory: Option<SessionFactory>): (r: ScopeArgs)
    ensures r.readOnly && r.joining == ForceCreateNew && r.isolationLevel == Some(level) && r.factory == factory
    ensures factory.Some? ==> forall amb :: Admit(r, amb) == Ok(false)
  {
    ReadOnlyArgs(ForceCreateNew, Some(level), factory, None)
  }

  /** `SessionReadOnlyScope(joiningOption, isolationLevel, sessionFactory)`: no interceptor. */
  function NoInterceptorReadOnlyArgs(joining: JoinOption, isolationLevel: Option<IsolationLevel>,
                                     factory: Option<SessionFactory>): (r: ScopeArgs)
    ensures r.readOnly && r.joining == joining && r.isolationLevel == isolationLevel
    ensures r.factory == factory && r.interceptor.None?
  {
    ReadOnlyArgs(joining, isolationLevel, factory, None)
  }

  class SessionReadOnlyScope {
    const inner: Scope

    constructor Wrap(inner: Scope)
      ensures this.inner == inner
    {
      this.inner := inner;
    }

    /** The constructor: opens the wrapped scope with `readOnly` forced to true. */
    static method Open(args: ScopeArgs, store: AmbientStore) returns (r: Result<SessionReadOnlyScope, Error>)
      requires store.Valid()
      modifies store`current, store`table
      ensures r.Err? <==> Admit(args.(readOnly := true), store.AmbientReadOnly(old(store.Ambient()))).Err?
      ensures r.Err? ==> r.error == Admit(args.(readOnly := true), store.AmbientReadOnly(old(store.Ambient()))).error
      ensures r.Err? ==> store.current == old(store.current) && store.table == old(store.table)
      ensures r.Ok? ==> fresh(r.value) && fresh(r.value.inner) && r.value.inner.readOnly
      ensures r.Ok? ==> r.value.inner.Linked() && r.value.inner.store == store && store.Ambient() == r.value.inner
      ensures r.Ok? ==> store.Valid() && !r.value.inner.disposed && !r.value.inner.completed
    {
      var s := Scope.Open(ReadOnlyArgs(args.joining, args.isolationLevel, args.factory, args.interceptor), store);
      if s.Err? {
        return Err(s.error);
      }
      var w := new SessionReadOnlyScope.Wrap(s.value);
      r := Ok(w);
    }

    /** ISessionReadOnlyScope.Session: exactly the wrapped scope's session. */
    method Session() returns (r: Result<SessionId, Error>, ghost o: CreateOutcome)
      modifies inner.session`state, inner.session.engine`log, inner.session.engine`sessions,
               inner.session.engine`transactions, inner.session.engine`next
      ensures inner.session.state.Created? ==> r == Ok(inner.session.state.session)
      ensures inner.session.state.Faulted? ==> r == Err(inner.session.state.error)
      ensures old(inner.session.state) != NotCreated ==> inner.session.state == old(inner.session.state)
      ensures old(inner.session.state) == NotCreated ==>
                inner.session.state == CreateResult(inner.session.origin, inner.session.isolationLevel, o)
    {
      r, o := inner.Session();
    }

    /**
     * IDisposable.Dispose, forwarded: an unfinished non-nested read-only scope takes the
     * commit path, never the rollback one.
     */
    method Dispose() returns (r: Option<Error>, ghost fin: TxOutcome, ghost closeOk: bool, ghost disposeOk: bool)
      requires inner.readOnly && inner.store.Valid() && inner.Linked()
      modifies inner`disposed, inner`completed, inner.session.engine`log, inner.session.engine`transactions,
               inner.session.engine`sessions, inner.store`current, inner.store`table
      ensures old(inner.disposed) ==> r == None && inner.disposed && inner.completed == old(inner.completed)
      ensures old(inner.disposed) ==>
                inner.session.engine.log == old(inner.session.engine.log)
                && inner.store.current == old(inner.store.current) && inner.store.table == old(inner.store.table)
      ensures !old(inner.disposed) ==> inner.completed == (old(inner.completed) || !inner.nested)
      ensures !old(inner.disposed) && inner.nested ==> inner.session.engine.log == old(inner.session.engine.log)
      ensures !old(inner.disposed) && !inner.nested && old(inner.completed) ==>
                inner.session.engine.log == old(inner.session.engine.log)
                  + ReleaseEvents(old(inner.ReleaseTarget()), old(inner.SessionOpen()), closeOk, disposeOk)
      // an unfinished owning read-only scope takes the commit path, never the rollback one
      ensures !old(inner.disposed) && !inner.nested && !old(inner.completed) ==>
                inner.session.engine.log == old(inner.session.engine.log) + CommitTxEvents(old(inner.ActiveTx()), fin)
                  + ReleaseEvents(old(inner.ReleaseTarget()), old(inner.SessionOpen()), closeOk, disposeOk)
      ensures !old(inner.disposed)
              && FailureOf(ReleaseEvents(old(inner.ReleaseTarget()), old(inner.SessionOpen()), closeOk, disposeOk)).Some? ==>
                r == FailureOf(ReleaseEvents(old(inner.ReleaseTarget()), old(inner.SessionOpen()), closeOk, disposeOk))
                && !inner.disposed
                && inner.store.current == old(inner.store.current) && inner.store.table == old(inner.store.table)
      ensures !old(inner.disposed)
              && FailureOf(ReleaseEvents(old(inner.ReleaseTarget()), old(inner.SessionOpen()), closeOk, disposeOk)).None?
              && old(inner.store.Ambient()) != inner ==>
                r == Some(InvalidOperation(DisposeOutOfOrder)) && !inner.disposed
                && inner.store.current == old(inner.store.current) && inner.store.table == old(inner.store.table)
      ensures !old(inner.disposed)
              && FailureOf(ReleaseEvents(old(inner.ReleaseTarget()), old(inner.SessionOpen()), closeOk, disposeOk)).None?
              && old(inner.store.Ambient()) == inner ==>
                r == None && inner.disposed && inner.store.Valid()
                && inner.store.current == (if inner.parent != null && !old(inner.parent.disposed) then inner.parent.id else null)
                && inner.store.table == (if inner.parent != null && !old(inner.parent.disposed)
                                         then Restore(old(inner.store.table) - {inner.id}, inner.parent)
                                         else old(inner.store.table) - {inner.id})
      ensures (!old(inner.disposed) && FailureOf(ReleaseEvents(old(inner.ReleaseTarget()), old(inner.SessionOpen()), closeOk, disposeOk)).None?
               && old(inner.store.Ambient()) == inner && inner.parent != null && !old(inner.parent.disposed)
               && (inner.parent.id in old(inner.store.table) ==> old(inner.store.table)[inner.parent.id] == inner.parent))
              ==> inner.store.Ambient() == inner.parent
      ensures !old(inner.disposed) && FailureOf(ReleaseEvents(old(inner.ReleaseTarget()), old(inner.SessionOpen()), closeOk, disposeOk)).None?
              && old(inner.store.Ambient()) == inner && (inner.parent == null || old(inner.parent.disposed)) ==>
                inner.store.Ambient() == null
    {
      r, fin, closeOk, disposeOk := inner.Dispose();
    }
  }
}
