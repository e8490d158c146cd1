/**
 * SessionScope: a unit of work over one lazily-created NHibernate session, made ambient for
 * the logical flow of execution so that nested scopes can join it, plus the ambient store
 * (the call-context slot holding the current scope's identifier and the table from
 * identifiers to scopes).  One logical flow is modelled: the slot is one field.
 */
module Scopes {
  import opened Wrappers
  import opened Provider
  import opened Exceptions
  import opened ScopeSpec

  /** Lazy<ISession>: the session factory runs on first access and its outcome is cached. */
  class LazySession {
    const engine: Engine
    const origin: Origin
    const readOnly: bool
    const isolationLevel: Option<IsolationLevel>
    var state: LazyState

    constructor (engine: Engine, origin: Origin, readOnly: bool, isolationLevel: Option<IsolationLevel>)
      ensures this.engine == engine && this.origin == origin
      ensures this.readOnly == readOnly && this.isolationLevel == isolationLevel
      ensures state == NotCreated
    {
      this.engine, this.origin := engine, origin;
      this.readOnly, this.isolationLevel := readOnly, isolationLevel;
      state := NotCreated;
    }

    /** Lazy.IsValueCreated: false before the first access and after a faulted one. */
    predicate IsValueCreated()
      reads this`state
    {
      state.Created?
    }

    /**
     * Lazy.Value: the first access opens the session, makes it read-only by default for a
     * read-only scope, and begins a transaction; later accesses return the cached session
     * or rethrow the cached exception.
     */
    method Value() returns (r: Result<SessionId, Error>, ghost o: CreateOutcome)
      modifies this`state, engine`log, engine`sessions, engine`transactions, engine`next
      ensures old(state) != NotCreated ==> state == old(state) && engine.log == old(engine.log)
      ensures old(state) != NotCreated ==> engine.sessions == old(engine.sessions) && engine.transactions == old(engine.transactions)
      ensures old(state) == NotCreated ==> state == CreateResult(origin, isolationLevel, o)
      ensures old(state) == NotCreated ==> engine.log == old(engine.log) + CreateEvents(origin, isolationLevel, o)
      ensures old(state) == NotCreated && state.Created? ==>
                engine.IsOpen(state.session) && engine.sessions[state.session].defaultReadOnly == readOnly
                && engine.ActiveTransaction(state.session).Some?
      ensures !state.NotCreated?
      ensures state.Created? ==> r == Ok(state.session)
      ensures state.Faulted? ==> r == Err(state.error)
    {
      o := CreateOutcome(false, 0, false);
      if state.Created? {
        return Ok(state.session), o;
      } else if state.Faulted? {
        return Err(state.error), o;
      }
      var openOk, s := engine.OpenSession(origin);
      if !openOk {
        o := CreateOutcome(false, s, false);
        state := Faulted(ProviderFailure(Call.OpenSession(origin)));
        return Err(state.error), o;
      }
      if readOnly {
        engine.SetDefaultReadOnly(s);
      }
      var beginOk, t := engine.BeginTransaction(s, isolationLevel);
      o := CreateOutcome(true, s, beginOk);
      if !beginOk {
        state := Faulted(ProviderFailure(Call.BeginTransaction(s, isolationLevel)));
        return Err(state.error), o;
      }
      state := Created(s);
      r := Ok(s);
    }
  }

  /** The key a scope is stored under; only its identity matters. */
  class InstanceIdentifier {
    constructor ()
    {
    }
  }

  class Scope {
    const store: AmbientStore
    const id: InstanceIdentifier
    const readOnly: bool
    const nested: bool
    /** The ambient scope when this one was created, whether or not this one joined it. */
    const parent: Scope?
    /** Shared with the parent when nested. */
    const session: LazySession
    /** The number of ancestors; it makes the parent chain well-founded. */
    ghost const depth: nat
    var disposed: bool
    var completed: bool

    constructor Make(store: AmbientStore, readOnly: bool, nested: bool, parent: Scope?, session: LazySession, ghost depth: nat)
      ensures this.store == store && this.readOnly == readOnly && this.nested == nested
      ensures this.parent == parent && this.session == session && this.depth == depth
      ensures fresh(id) && !disposed && !completed
    {
      this.store, this.readOnly, this.nested := store, readOnly, nested;
      this.parent, this.session, this.depth := parent, session, depth;
      id := new InstanceIdentifier();
      disposed, completed := false, false;
    }

    /**
     * The facts construction establishes along the parent chain: every ancestor uses the
     * same engine, and a nested scope shares its parent's session and is read-only if the
     * parent is.
     */
    ghost predicate Linked()
      decreases depth
    {
      (parent != null ==> parent.depth < depth && parent.session.engine == session.engine && parent.Linked())
      && (nested ==> parent != null && session == parent.session && (parent.readOnly ==> readOnly))
    }

    /** The scope that created the session this scope uses: the nearest non-nested ancestor. */
    ghost function Root(): (r: Scope)
      requires Linked()
      decreases depth
      ensures !r.nested && r.session == session && r.Linked()
      ensures r.readOnly ==> readOnly
    {
      if nested then parent.Root() else this
    }

    /** The transaction CommitInternal and RollbackInternal act on, if any. */
    function ActiveTx(): Option<TxId>
      reads session`state, session.engine`sessions, session.engine`transactions
    {
      if session.state.Created? then session.engine.ActiveTransaction(session.state.session) else None
    }

    /** The session Dispose closes and disposes: only a non-nested scope's, and only if it was created. */
    function ReleaseTarget(): Option<SessionId>
      reads session`state
    {
      if !nested && session.state.Created? then Some(session.state.session) else None
    }

    function SessionOpen(): bool
      reads session`state, session.engine`sessions
    {
      session.state.Created? && session.engine.IsOpen(session.state.session)
    }

    /**
     * Opens a scope: rejects the arguments Admit rejects, records the ambient scope as the
     * parent, joins it (sharing its session) or creates a new lazy session, and makes the
     * new scope ambient.
     */
    static method Open(args: ScopeArgs, store: AmbientStore) returns (r: Result<Scope, Error>)
      requires store.Valid()
      modifies store`current, store`table
      ensures r.Err? <==> Admit(args, store.AmbientReadOnly(old(store.Ambient()))).Err?
      ensures r.Err? ==> r.error == Admit(args, store.AmbientReadOnly(old(store.Ambient()))).error
      ensures r.Err? ==> store.current == old(store.current) && store.table == old(store.table)
      ensures r.Ok? ==> fresh(r.value) && r.value.Linked() && r.value.store == store
      ensures r.Ok? ==> r.value.nested == Admit(args, store.AmbientReadOnly(old(store.Ambient()))).value
      ensures r.Ok? ==> r.value.readOnly == args.readOnly && r.value.parent == old(store.Ambient())
      ensures r.Ok? ==> !r.value.disposed && !r.value.completed
      ensures r.Ok? && r.value.nested ==> r.value.session == r.value.parent.session
      ensures r.Ok? && !r.value.nested ==>
                fresh(r.value.session) && r.value.session.state == NotCreated
                && r.value.session.engine == store.engine
                && r.value.session.origin == FromSessionFactory(args.factory.value, args.interceptor)
                && r.value.session.readOnly == args.readOnly
                && r.value.session.isolationLevel == args.isolationLevel
      ensures r.Ok? ==> store.Valid() && store.Ambient() == r.value
      ensures r.Ok? ==> store.table == old(store.table)[r.value.id := r.value]
    {
      if args.isolationLevel.Some? && args.joining == JoinExisting {
        return Err(Argument);
      }
      if args.factory.None? {
        return Err(ArgumentNull("sessionFactory"));
      }
      var parentScope := store.Ambient();
      var scope: Scope;
      if parentScope != null && args.joining == JoinExisting {
        if parentScope.readOnly && !args.readOnly {
          return Err(InvalidOperation(NestReadWriteInReadOnly));
        }
        scope := new Scope.Make(store, args.readOnly, true, parentScope, parentScope.session, parentScope.depth + 1);
      } else {
        var lazy := new LazySession(store.engine, FromSessionFactory(args.factory.value, args.interceptor),
                                    args.readOnly, args.isolationLevel);
        scope := new Scope.Make(store, args.readOnly, false, parentScope, lazy,
                                if parentScope == null then 0 else parentScope.depth + 1);
      }
      var _ := store.SetAmbient(scope);
      r := Ok(scope);
    }

    /** ISessionScope.Session: the shared lazy session's value. */
    method Session() returns (r: Result<SessionId, Error>, ghost o: CreateOutcome)
      modifies session`state, session.engine`log, session.engine`sessions, session.engine`transactions, session.engine`next
      ensures old(session.state) != NotCreated ==> session.state == old(session.state) && session.engine.log == old(session.engine.log)
      ensures old(session.state) == NotCreated ==>
                session.state == CreateResult(session.origin, session.isolationLevel, o)
                && session.engine.log == old(session.engine.log) + CreateEvents(session.origin, session.isolationLevel, o)
      ensures session.state.Created? ==> r == Ok(session.state.session)
      ensures session.state.Faulted? ==> r == Err(session.state.error)
    {
      r, o := session.Value();
    }

    /**
     * Commits the session's active transaction, if the session was created and has one:
     * a failing commit is followed by a rollback, and the transaction is disposed in
     * every case; the exception is rethrown (as CommitError chooses).
     */
    method CommitInternal() returns (err: Option<Error>, ghost o: TxOutcome)
      modifies session.engine`log, session.engine`transactions
      ensures session.engine.log == old(session.engine.log) + CommitTxEvents(old(ActiveTx()), o)
      ensures err == CommitTxError(old(ActiveTx()), o)
    {
      var engine := session.engine;
      o := TxOutcome(true, true, true);
      var tx := ActiveTx();
      if tx.None? {
        return None, o;
      }
      var t := tx.value;
      err := None;
      var commitOk := engine.CommitTransaction(t);
      var rollbackOk := true;
      if !commitOk {
        err := Some(ProviderFailure(Call.CommitTransaction(t)));
        rollbackOk := engine.RollbackTransaction(t);
        if !rollbackOk {
          err := Some(ProviderFailure(Call.RollbackTransaction(t)));
        }
      }
      var disposeOk := engine.DisposeTransaction(t);
      if !disposeOk {
        err := Some(ProviderFailure(Call.DisposeTransaction(t)));
      }
      o := TxOutcome(commitOk, rollbackOk, disposeOk);
    }

    /** Rolls back the session's active transaction, if any, and disposes it in every case. */
    method RollbackInternal() returns (err: Option<Error>, ghost o: TxOutcome)
      modifies session.engine`log, session.engine`transactions
      ensures session.engine.log == old(session.engine.log) + RollbackTxEvents(old(ActiveTx()), o)
      ensures err == RollbackTxError(old(ActiveTx()), o)
    {
      var engine := session.engine;
      o := TxOutcome(true, true, true);
      var tx := ActiveTx();
      if tx.None? {
        return None, o;
      }
      var t := tx.value;
      err := None;
      var rollbackOk := engine.RollbackTransaction(t);
      if !rollbackOk {
        err := Some(ProviderFailure(Call.RollbackTransaction(t)));
      }
      var disposeOk := engine.DisposeTransaction(t);
      if !disposeOk {
        err := Some(ProviderFailure(Call.DisposeTransaction(t)));
      }
      o := TxOutcome(rollbackOk, true, disposeOk);
    }

    /**
     * ISessionScope.SaveChanges: refused once disposed or completed; a nested scope leaves
     * the commit to the scope that created the session; a failing commit leaves the scope
     * not completed.
     */
    method SaveChanges() returns (r: Option<Error>, ghost o: TxOutcome)
      modifies this`completed, session.engine`log, session.engine`transactions
      ensures disposed ==> r == Some(ObjectDisposed("SessionScope"))
      ensures !disposed && old(completed) ==> r == Some(InvalidOperation(SaveChangesTwice))
      ensures disposed || old(completed) ==> completed == old(completed) && session.engine.log == old(session.engine.log)
      ensures !disposed && !old(completed) && nested ==> r == None && completed && session.engine.log == old(session.engine.log)
      ensures !disposed && !old(completed) && !nested ==>
                session.engine.log == old(session.engine.log) + CommitTxEvents(old(ActiveTx()), o)
                && r == CommitTxError(old(ActiveTx()), o)
                && (completed <==> r.None?)
    {
      o := TxOutcome(true, true, true);
      if disposed {
        return Some(ObjectDisposed("SessionScope")), o;
      }
      if completed {
        return Some(InvalidOperation(SaveChangesTwice)), o;
      }
      if !nested {
        r, o := CommitInternal();
        if r.Some? {
          return;
        }
      }
      completed := true;
      r := None;
    }

    /** The auto-completion in Dispose: commit a read-only scope, roll back a read/write one; errors are swallowed. */
    method Finish() returns (ghost o: TxOutcome)
      modifies this`completed, session.engine`log, session.engine`transactions
      ensures completed
      ensures session.engine.log == old(session.engine.log) + FinishEvents(readOnly, old(ActiveTx()), o)
    {
      if readOnly {
        var _, oc := CommitInternal();
        o := oc;
      } else {
        var _, orb := RollbackInternal();
        o := orb;
      }
      completed := true;
    }

    /** Closes (if open) and disposes the session of a non-nested scope if it was ever created. */
    method Release() returns (err: Option<Error>, ghost closeOk: bool, ghost disposeOk: bool)
      modifies session.engine`log, session.engine`sessions
      ensures session.engine.log == old(session.engine.log) + ReleaseEvents(old(ReleaseTarget()), old(SessionOpen()), closeOk, disposeOk)
      ensures err == FailureOf(ReleaseEvents(old(ReleaseTarget()), old(SessionOpen()), closeOk, disposeOk))
    {
      closeOk, disposeOk := true, true;
      err := None;
      if nested || !session.IsValueCreated() {
        return;
      }
      var engine := session.engine;
      var s := session.state.session;
      if engine.IsOpen(s) {
        var ok := engine.CloseSession(s);
        closeOk := ok;
        if !ok {
          return Some(ProviderFailure(Call.CloseSession(s))), closeOk, disposeOk;
        }
      }
      var ok := engine.DisposeSession(s);
      disposeOk := ok;
      if !ok {
        err := Some(ProviderFailure(Call.DisposeSession(s)));
      }
    }

    /**
     * The ambient half of Dispose: only the ambient scope may be disposed; it is removed
     * and its parent made ambient again unless the parent was disposed first, in which case
     * no scope is left ambient.
     */
    method Unlink() returns (r: Option<Error>)
      requires store.Valid() && Linked()
      modifies store`current, store`table, this`disposed
      ensures old(store.Ambient()) != this ==>
                r == Some(InvalidOperation(DisposeOutOfOrder)) && disposed == old(disposed)
                && store.current == old(store.current) && store.table == old(store.table)
      ensures old(store.Ambient()) == this ==> r == None && disposed && store.Valid()
      ensures old(store.Ambient()) == this ==>
                store.current == (if parent != null && !old(parent.disposed) then parent.id else null)
      ensures old(store.Ambient()) == this ==>
                store.table == (if parent != null && !old(parent.disposed) then Restore(old(store.table) - {id}, parent)
                                else old(store.table) - {id})
      ensures old(store.Ambient()) == this ==> id !in store.table || (parent != null && parent.id == id)
      ensures (old(store.Ambient()) == this && parent != null && !old(parent.disposed)
               && (parent.id in old(store.table) ==> old(store.table)[parent.id] == parent))
              ==> store.Ambient() == parent
      ensures old(store.Ambient()) == this && (parent == null || old(parent.disposed)) ==> store.Ambient() == null
    {
      var current := store.Ambient();
      if current != this {
        return Some(InvalidOperation(DisposeOutOfOrder));
      }
      store.RemoveAmbient();
      if parent != null {
        if !parent.disposed {
          var _ := store.SetAmbient(parent);
        }
      }
      disposed := true;
      r := None;
    }

    /**
     * The part of Dispose after the auto-completion: release the session, then leave the
     * ambient store, unless releasing threw.
     */
    method Leave() returns (r: Option<Error>, ghost closeOk: bool, ghost disposeOk: bool)
      requires store.Valid() && Linked()
      modifies this`disposed, session.engine`log, session.engine`sessions, store`current, store`table
      ensures session.engine.log == old(session.engine.log) + ReleaseEvents(old(ReleaseTarget()), old(SessionOpen()), closeOk, disposeOk)
      ensures FailureOf(ReleaseEvents(old(ReleaseTarget()), old(SessionOpen()), closeOk, disposeOk)).Some? ==>
                r == FailureOf(ReleaseEvents(old(ReleaseTarget()), old(SessionOpen()), closeOk, disposeOk))
                && disposed == old(disposed) && store.current == old(store.current) && store.table == old(store.table)
      ensures FailureOf(ReleaseEvents(old(ReleaseTarget()), old(SessionOpen()), closeOk, disposeOk)).None? ==>
                if old(store.Ambient()) == this then
                  r == None && disposed && store.Valid()
                  && store.current == (if parent != null && !old(parent.disposed) then parent.id else null)
                  && store.table == (if parent != null && !old(parent.disposed) then Restore(old(store.table) - {id}, parent)
                                     else old(store.table) - {id})
                else
                  r == Some(InvalidOperation(DisposeOutOfOrder)) && disposed == old(disposed)
                  && store.current == old(store.current) && store.table == old(store.table)
      ensures FailureOf(ReleaseEvents(old(ReleaseTarget()), old(SessionOpen()), closeOk, disposeOk)).None? && old(store.Ambient()) == this ==>
                id !in store.table || (parent != null && parent.id == id)
      ensures (FailureOf(ReleaseEvents(old(ReleaseTarget()), old(SessionOpen()), closeOk, disposeOk)).None? && old(store.Ambient()) == this && parent != null && !old(parent.disposed)
               && (parent.id in old(store.table) ==> old(store.table)[parent.id] == parent))
              ==> store.Ambient() == parent
      ensures FailureOf(ReleaseEvents(old(ReleaseTarget()), old(SessionOpen()), closeOk, disposeOk)).None? && old(store.Ambient()) == this && (parent == null || old(parent.disposed)) ==>
                store.Ambient() == null
    {
      r, closeOk, disposeOk := Release();
      if r.Some? {
        return;
      }
      r := Unlink();
    }

    /**
     * IDisposable.Dispose: does nothing the second time.  A non-nested scope finishes its
     * unfinished work (commit if read-only, roll back otherwise, errors swallowed) and
     * releases its session; a failure to close or dispose the session is thrown and leaves
     * the scope not disposed and still ambient.  Then the scope leaves the ambient store
     * (see Unlink).
     */
    method Dispose() returns (r: Option<Error>, ghost fin: TxOutcome, ghost closeOk: bool, ghost disposeOk: bool)
      requires store.Valid() && Linked()
      modifies this`disposed, this`completed, session.engine`log, session.engine`transactions, session.engine`sessions, store`current, store`table
      ensures old(disposed) ==> r == None && disposed && completed == old(completed)
      ensures old(disposed) ==> session.engine.log == old(session.engine.log)
                                && store.current == old(store.current) && store.table == old(store.table)
      ensures !old(disposed) ==> completed == (old(completed) || !nested)
      ensures !old(disposed) && nested ==> session.engine.log == old(session.engine.log)
      ensures !old(disposed) && !nested && old(completed) ==>
                session.engine.log == old(session.engine.log) + ReleaseEvents(old(ReleaseTarget()), old(SessionOpen()), closeOk, disposeOk)
      ensures !old(disposed) && !nested && !old(completed) ==>
                session.engine.log == old(session.engine.log) + FinishEvents(readOnly, old(ActiveTx()), fin)
                  + ReleaseEvents(old(ReleaseTarget()), old(SessionOpen()), closeOk, disposeOk)
      ensures !old(disposed) && FailureOf(ReleaseEvents(old(ReleaseTarget()), old(SessionOpen()), closeOk, disposeOk)).Some? ==>
                r == FailureOf(ReleaseEvents(old(ReleaseTarget()), old(SessionOpen()), closeOk, disposeOk))
                && !disposed && store.current == old(store.current) && store.table == old(store.table)
      ensures !old(disposed) && FailureOf(ReleaseEvents(old(ReleaseTarget()), old(SessionOpen()), closeOk, disposeOk)).None? ==>
                if old(store.Ambient()) == this then
                  r == None && disposed && store.Valid()
                  && store.current == (if parent != null && !old(parent.disposed) then parent.id else null)
                  && store.table == (if parent != null && !old(parent.disposed) then Restore(old(store.table) - {id}, parent)
                                     else old(store.table) - {id})
                else
                  r == Some(InvalidOperation(DisposeOutOfOrder)) && !disposed
                  && store.current == old(store.current) && store.table == old(store.table)
      ensures !old(disposed) && FailureOf(ReleaseEvents(old(ReleaseTarget()), old(SessionOpen()), closeOk, disposeOk)).None? && old(store.Ambient()) == this ==>
                id !in store.table || (parent != null && parent.id == id)
      ensures (!old(disposed) && FailureOf(ReleaseEvents(old(ReleaseTarget()), old(SessionOpen()), closeOk, disposeOk)).None? && old(store.Ambient()) == this && parent != null && !old(parent.disposed)
               && (parent.id in old(store.table) ==> old(store.table)[parent.id] == parent))
              ==> store.Ambient() == parent
      ensures !old(disposed) && FailureOf(ReleaseEvents(old(ReleaseTarget()), old(SessionOpen()), closeOk, disposeOk)).None? && old(store.Ambient()) == this && (parent == null || old(parent.disposed)) ==>
                store.Ambient() == null
    {
      fin, closeOk, disposeOk := TxOutcome(true, true, true), true, true;
      if disposed {
        return None, fin, closeOk, disposeOk;
      }
      if !nested && !completed {
        fin := Finish();
      }
      r, closeOk, disposeOk := Leave();
    }
  }

  /** ConditionalWeakTable.GetValue: the entry for `s.id`, added only if there is none. */
  function Restore(table: map<InstanceIdentifier, Scope>, s: Scope): (r: map<InstanceIdentifier, Scope>)
    ensures s.id in r && r.Keys == table.Keys + {s.id}
    ensures s.id !in table ==> r[s.id] == s
    ensures forall k | k in table :: r[k] == table[k]
  {
    if s.id in table then table else table[s.id := s]
  }

  /**
   * The ambient context: `current` is the identifier the call context holds (null when
   * none), `table` the weak table from identifiers to scopes.
   */
  class AmbientStore {
    const engine: Engine
    var current: InstanceIdentifier?
    var table: map<InstanceIdentifier, Scope>

    constructor (engine: Engine)
      ensures this.engine == engine && current == null && table == map[]
    {
      this.engine := engine;
      current, table := null, map[];
    }

    /** Every scope in the table is stored under its own identifier, shares this store's engine and is linked. */
    ghost predicate Valid()
      reads this`table
    {
      forall k | k in table :: table[k].id == k && table[k].session.engine == engine && table[k].Linked()
    }

    /** The lazy sessions of the scopes in the table. */
    ghost function Sessions(): set<LazySession>
      reads this`table
    {
      set k | k in table :: table[k].session
    }

    /**
     * GetAmbientScope: the scope whose identifier the call context holds, or null when there
     * is no identifier or the table has no entry for it.  It never throws.
     */
    function Ambient(): (r: Scope?)
      reads this`current, this`table
      ensures r == null <==> current == null || current !in table
      ensures r != null ==> r == table[current]
    {
      if current == null then null
      else if current in table then table[current]
      else null
    }

    /** What Open needs to know of the ambient scope: whether there is one, and if so whether it is read-only. */
    function AmbientReadOnly(a: Scope?): (r: Option<bool>)
      ensures r.None? <==> a == null
      ensures r.Some? ==> r.value == a.readOnly
    {
      if a == null then None else Some(a.readOnly)
    }

    /** SetAmbientScope: refuses null; does nothing if the scope is already current. */
    method SetAmbient(s: Scope?) returns (r: Option<Error>)
      requires Valid() && (s != null ==> s.session.engine == engine && s.Linked())
      modifies this`current, this`table
      ensures s == null ==> r == Some(ArgumentNull("newAmbientScope")) && current == old(current) && table == old(table)
      ensures s != null ==> r == None && Valid() && current == s.id
      ensures s != null && old(current) == s.id ==> table == old(table)
      ensures s != null && old(current) != s.id ==> table == Restore(old(table), s)
    {
      if s == null {
        return Some(ArgumentNull("newAmbientScope"));
      }
      r := None;
      if current == s.id {
        return;
      }
      current := s.id;
      table := Restore(table, s);
    }

    /** RemoveAmbientScope: drops the current identifier's table entry and clears the slot. */
    method RemoveAmbient()
      requires Valid()
      modifies this`current, this`table
      ensures current == null && Ambient() == null && Valid()
      ensures table == if old(current) != null then old(table) - {old(current)} else old(table)
    {
      if current != null {
        table := table - {current};
      }
      current := null;
    }

    /** HideAmbientScope: clears the slot but keeps the table entry. */
    method HideAmbient()
      modifies this`current
      ensures current == null && Ambient() == null
      ensures table == old(table)
    {
      current := null;
    }

    /** A weak-table entry disappearing (its key collected, or removed by another flow). */
    method Collect(k: InstanceIdentifier)
      requires Valid()
      modifies this`table
      ensures table == old(table) - {k} && Valid()
      ensures current == old(current)
    {
      table := table - {k};
    }
  }
}
