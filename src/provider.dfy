/**
 * NHibernate as this library sees it: session factories that open sessions, sessions that
 * flush and begin transactions, transactions that commit, roll back and are disposed.
 * None of NHibernate's code is modelled.  One `Engine` object holds the state of every
 * session and transaction and a log of every call made to it; each call may fail for any
 * reason (the outcome is chosen nondeterministically) and is logged with its outcome.
 */
module Provider {
  import opened Wrappers

  type SessionId = nat
  type TxId = nat

  /** System.Data.IsolationLevel. */
  datatype IsolationLevel =
    | Unspecified | Chaos | ReadUncommitted | ReadCommitted | RepeatableRead | Serializable | Snapshot

  /** An ISessionFactory reference (a non-null one; null is `None` where the source allows it). */
  datatype SessionFactory = SessionFactory(name: string)

  /** A session-local IInterceptor. */
  datatype Interceptor = Interceptor(name: string)

  /**
   * A factory type given as a generic argument to a collection's Get: its namespace, its
   * simple name (`typeof(T).Name`), and whether it implements IDbFactory<ISessionFactory>
   * and IContextFactory<ISessionFactory>.
   */
  datatype FactoryType = FactoryType(namespace: string, name: string, isDbFactory: bool, isContextFactory: bool)

  /** Where a session is opened from. */
  datatype Origin =
    | FromSessionFactory(factory: SessionFactory, interceptor: Option<Interceptor>)
    | FromFactoryType(factoryType: FactoryType)

  /** A call into NHibernate. */
  datatype Call =
    | OpenSession(origin: Origin)
    | Bind(session: SessionId)
    | BeginTransaction(session: SessionId, level: Option<IsolationLevel>)
    | Flush(session: SessionId)
    | CommitTransaction(tx: TxId)
    | RollbackTransaction(tx: TxId)
    | DisposeTransaction(tx: TxId)
    | CloseSession(session: SessionId)
    | DisposeSession(session: SessionId)

  /** A logged call and whether it returned normally (`ok`) or threw. */
  datatype Event = Event(call: Call, ok: bool)

  datatype TxStatus = Active | Committed | RolledBack

  datatype Transaction = Transaction(session: SessionId, level: Option<IsolationLevel>, status: TxStatus, disposed: bool)

  datatype SessionState = SessionState(
    origin: Origin,
    open: bool,
    bound: bool,
    flushNever: bool,
    defaultReadOnly: bool,
    transaction: Option<TxId>,
    disposed: bool)

  class Engine {
    var sessions: map<SessionId, SessionState>
    var transactions: map<TxId, Transaction>
    var log: seq<Event>
    var next: nat

    constructor ()
      ensures sessions == map[] && transactions == map[] && log == []
    {
      sessions, transactions, log, next := map[], map[], [], 0;
    }

    /** ISession.IsOpen; an unknown session reads as closed. */
    function IsOpen(s: SessionId): bool
      reads this`sessions
    {
      s in sessions && sessions[s].open
    }

    /** `session.Transaction` when it is non-null and `IsActive`, else None. */
    function ActiveTransaction(s: SessionId): (r: Option<TxId>)
      reads this`sessions, this`transactions
      ensures r.Some? ==> r.value in transactions && transactions[r.value].status == Active
    {
      if s in sessions && sessions[s].transaction.Some?
         && sessions[s].transaction.value in transactions
         && transactions[sessions[s].transaction.value].status == Active
         && !transactions[sessions[s].transaction.value].disposed
      then sessions[s].transaction
      else None
    }

    method OpenSession(origin: Origin) returns (ok: bool, s: SessionId)
      modifies this`log, this`sessions, this`next
      ensures log == old(log) + [Event(Call.OpenSession(origin), ok)]
      ensures sessions == if ok then old(sessions)[s := SessionState(origin, true, false, false, false, None, false)]
                          else old(sessions)
    {
      ok := *;
      s := next;
      if ok {
        sessions := sessions[s := SessionState(origin, true, false, false, false, None, false)];
        next := next + 1;
      }
      log := log + [Event(Call.OpenSession(origin), ok)];
    }

    /** CurrentSessionContext.Bind(session). */
    method Bind(s: SessionId) returns (ok: bool)
      modifies this`log, this`sessions
      ensures log == old(log) + [Event(Call.Bind(s), ok)]
      ensures sessions == if ok && s in old(sessions) then old(sessions)[s := old(sessions)[s].(bound := true)]
                          else old(sessions)
    {
      ok := *;
      if ok && s in sessions {
        sessions := sessions[s := sessions[s].(bound := true)];
      }
      log := log + [Event(Call.Bind(s), ok)];
    }

    /** `session.FlushMode = FlushMode.Never` (a property set; not a logged call). */
    method SetFlushModeNever(s: SessionId)
      modifies this`sessions
      ensures sessions == if s in old(sessions) then old(sessions)[s := old(sessions)[s].(flushNever := true)]
                          else old(sessions)
    {
      if s in sessions {
        sessions := sessions[s := sessions[s].(flushNever := true)];
      }
    }

    /** `session.DefaultReadOnly = true` (a property set; not a logged call). */
    method SetDefaultReadOnly(s: SessionId)
      modifies this`sessions
      ensures sessions == if s in old(sessions) then old(sessions)[s := old(sessions)[s].(defaultReadOnly := true)]
                          else old(sessions)
    {
      if s in sessions {
        sessions := sessions[s := sessions[s].(defaultReadOnly := true)];
      }
    }

    /** `session.BeginTransaction()` or `session.BeginTransaction(level)`. */
    method BeginTransaction(s: SessionId, level: Option<IsolationLevel>) returns (ok: bool, t: TxId)
      modifies this`log, this`sessions, this`transactions, this`next
      ensures log == old(log) + [Event(Call.BeginTransaction(s, level), ok)]
      ensures transactions == if ok then old(transactions)[t := Transaction(s, level, Active, false)] else old(transactions)
      ensures sessions == if ok && s in old(sessions) then old(sessions)[s := old(sessions)[s].(transaction := Some(t))]
                          else old(sessions)
      ensures ok && s in sessions ==> ActiveTransaction(s) == Some(t)
    {
      ok := *;
      t := next;
      if ok {
        transactions := transactions[t := Transaction(s, level, Active, false)];
        next := next + 1;
        if s in sessions {
          sessions := sessions[s := sessions[s].(transaction := Some(t))];
        }
      }
      log := log + [Event(Call.BeginTransaction(s, level), ok)];
    }

    /** ISession.Flush(). */
    method Flush(s: SessionId) returns (ok: bool)
      modifies this`log
      ensures log == old(log) + [Event(Call.Flush(s), ok)]
    {
      ok := *;
      log := log + [Event(Call.Flush(s), ok)];
    }

    method CommitTransaction(t: TxId) returns (ok: bool)
      modifies this`log, this`transactions
      ensures log == old(log) + [Event(Call.CommitTransaction(t), ok)]
      ensures transactions == if ok && t in old(transactions) then old(transactions)[t := old(transactions)[t].(status := Committed)]
                              else old(transactions)
    {
      ok := *;
      if ok && t in transactions {
        transactions := transactions[t := transactions[t].(status := Committed)];
      }
      log := log + [Event(Call.CommitTransaction(t), ok)];
    }

    method RollbackTransaction(t: TxId) returns (ok: bool)
      modifies this`log, this`transactions
      ensures log == old(log) + [Event(Call.RollbackTransaction(t), ok)]
      ensures transactions == if ok && t in old(transactions) then old(transactions)[t := old(transactions)[t].(status := RolledBack)]
                              else old(transactions)
    {
      ok := *;
      if ok && t in transactions {
        transactions := transactions[t := transactions[t].(status := RolledBack)];
      }
      log := log + [Event(Call.RollbackTransaction(t), ok)];
    }

    method DisposeTransaction(t: TxId) returns (ok: bool)
      modifies this`log, this`transactions
      ensures log == old(log) + [Event(Call.DisposeTransaction(t), ok)]
      ensures transactions == if ok && t in old(transactions) then old(transactions)[t := old(transactions)[t].(disposed := true)]
                              else old(transactions)
    {
      ok := *;
      if ok && t in transactions {
        transactions := transactions[t := transactions[t].(disposed := true)];
      }
      log := log + [Event(Call.DisposeTransaction(t), ok)];
    }

    /** ISession.Close(). */
    method CloseSession(s: SessionId) returns (ok: bool)
      modifies this`log, this`sessions
      ensures log == old(log) + [Event(Call.CloseSession(s), ok)]
      ensures sessions == if ok && s in old(sessions) then old(sessions)[s := old(sessions)[s].(open := false)]
                          else old(sessions)
    {
      ok := *;
      if ok && s in sessions {
        sessions := sessions[s := sessions[s].(open := false)];
      }
      log := log + [Event(Call.CloseSession(s), ok)];
    }

    /** ISession.Dispose(). */
    method DisposeSession(s: SessionId) returns (ok: bool)
      modifies this`log, this`sessions
      ensures log == old(log) + [Event(Call.DisposeSession(s), ok)]
      ensures sessions == if ok && s in old(sessions) then old(sessions)[s := old(sessions)[s].(open := false, disposed := true)]
                          else old(sessions)
    {
      ok := *;
      if ok && s in sessions {
        sessions := sessions[s := sessions[s].(open := false, disposed := true)];
      }
      log := log + [Event(Call.DisposeSession(s), ok)];
    }
  }
}
