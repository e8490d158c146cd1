# Ambient NHibernate session scopes, modelled in Dafny

This project models the ambient scope manager of the NHibernate session-scope library (a port of
Mehdi El Gueddari's DbContextScope to NHibernate). The library lets nested calls share one set of
database sessions and one unit of work. Commit or rollback happens in one place: the outermost
scope. The model covers these parts:

- **`SessionScope`** (module `Scopes`, class `Scope`): the constructor's join / force-new
  decision, the lazily created session shared with joined children, `SaveChanges`,
  `CommitInternal`, `RollbackInternal` and `Dispose`.
- **The ambient store** (class `AmbientStore`): the call-context slot holding the current
  scope's `InstanceIdentifier`, and the weak table from identifiers to scopes.
  `SetAmbientScope`, `RemoveAmbientScope`, `HideAmbientScope` and `GetAmbientScope` are its
  operations.
- **`NHibernateSessionCollection` and `NHibernateContextCollection`** (modules
  `SessionCollections` and `ContextCollections`): the per-factory-type cache of sessions and the
  best-effort `Commit`, `Rollback` and `Dispose` loops over it.
- **`SessionScopeFactory`, `SessionReadOnlyScope` and `AmbientSessionLocator`** (modules
  `ScopeFactories`, `ReadOnlyScopes` and `Locators`): the thin façades over `SessionScope`.

NHibernate itself is the class `Provider.Engine`. It is an opaque runtime that hands out
session and transaction handles and keeps ghost state for each handle: open, bound,
`FlushMode.Never`, default read-only, and the transaction's status. Each call is appended to
`log` as an `Event(call, ok)`. Every call may throw, so its success is a nondeterministic
outcome. Exceptions are values of `Exceptions.Error`, returned as `Result`/`Option`.

The loops and call sequences are proved against pure specifications. `CollectionSpec` gives
the calls of one iteration of the collections' loops as a function of the session and what
NHibernate answered (`StepEvents`), and the calls of a whole loop (`RunEvents`). It also gives
the exception the loop rethrows (`RunError`). `ScopeSpec` does the same for the scope: whether
the constructor admits it (`Admit`), the lazy factory's calls (`CreateEvents`), `CommitInternal`
and `RollbackInternal` (`CommitEvents`, `RollbackEvents`), and releasing the session
(`ReleaseEvents`). Each method's `ensures` ties the new `log` and its result to these
functions. The lemmas then prove the properties of the functions: best effort, the last error
wins, and so on.

Where the code and its documentation disagree, the model follows the code:

- The collections' `Commit` and `Rollback` rethrow the **last** exception captured. Each capture
  overwrites `lastError`; the first failure is not kept.
- A session is cached under `typeof(TFactory).Name`, the simple type name. Two factory types
  with the same name in different namespaces share one session (`CollectionSpec.SessionKey`).
- `SessionScope.Dispose` guards only the commit/rollback with `try`/`catch`. If closing or
  disposing the session throws, the exception escapes `Dispose`, and the scope stays undisposed
  and ambient.
- A lazy session whose `BeginTransaction` throws has already been opened. `Lazy<T>` caches the
  exception, and `IsValueCreated` stays false, so `Dispose` never closes that session.
- `NHibernateSessionCollection.Commit` and `Rollback` name the disposed object
  "DbContextCollection" while its `Get` says "NHibernateSessionCollection". The model keeps
  both names.

## Model

| member | source | states |
|---|---|---|
| Exceptions.FailureOf | src/GNaP.Data.Scope.NHibernate/Implementation/NHibernateSessionCollection.cs:104-122 | A block of calls stopped by its first throwing call ends with an exception exactly when its last call threw; the exception is that call's failure |
| CollectionSpec.GetValueOrDefault | src/GNaP.Data.Scope.NHibernate/Implementation/NHibernateSessionCollection.cs:212-216 | The entry for the key when the dictionary has one, the default (None) exactly when it has none |
| CollectionSpec.EnumeratesAdd | src/GNaP.Data.Scope.NHibernate/Implementation/NHibernateSessionCollection.cs:52 | Adding a new key keeps the dictionary's keys in step with the order `Values` enumerates them, without duplicates |
| CollectionSpec.OpenEvents | src/GNaP.Data.Scope.NHibernate/Implementation/NHibernateSessionCollection.cs:47-63 | Get for a new key opens a session first, makes a call only after all earlier ones succeeded, and begins a transaction exactly when an isolation level is set and opening and binding succeeded |
| CollectionSpec.OpenResult | src/GNaP.Data.Scope.NHibernate/Implementation/NHibernateSessionCollection.cs:47-65 | Get returns the new session exactly when it was opened, bound and (with an isolation level) its transaction begun; otherwise it throws the failure of one of its calls |
| CollectionSpec.StepsOf | src/GNaP.Data.Scope.NHibernate/Implementation/NHibernateSessionCollection.cs:102-112 | The loop visits the sessions of the dictionary in `Values` order, each paired with the transaction recorded for it, if any |
| CollectionSpec.StepEvents | src/GNaP.Data.Scope.NHibernate/Implementation/NHibernateSessionCollection.cs:104-117 | A read/write Commit iteration flushes first and stops there if the flush throws; a Rollback iteration of a session without a transaction makes no call |
| CollectionSpec.StepEventsShape | src/GNaP.Data.Scope.NHibernate/Implementation/NHibernateSessionCollection.cs:104-122 | An iteration's calls all succeed except possibly the last, and touch only its own session and recorded transaction |
| CollectionSpec.LastErrorNoneIffNoCapture | src/GNaP.Data.Scope.NHibernate/Implementation/NHibernateSessionCollection.cs:98-129 | Nothing is rethrown exactly when no iteration captured an exception |
| CollectionSpec.LastErrorIsLastCapture | src/GNaP.Data.Scope.NHibernate/Implementation/NHibernateSessionCollection.cs:121-129 | What is rethrown is a captured exception after which no later iteration captured anything |
| CollectionSpec.EverySessionDisposed | src/GNaP.Data.Scope.NHibernate/Implementation/NHibernateSessionCollection.cs:196-206 | The disposal loop calls Dispose on every session, in order, one call each, whatever the others did |
| CollectionSpec.RunEventsAppend | src/GNaP.Data.Scope.NHibernate/Implementation/NHibernateSessionCollection.cs:102-123 | The calls of a loop over two runs of sessions are the calls over the first followed by those over the second |
| CollectionSpec.EveryStepAttempted | src/GNaP.Data.Scope.NHibernate/Implementation/NHibernateSessionCollection.cs:102-123 | Best effort: the calls of iteration i are made unchanged whatever NHibernate answered in the iterations before and after it |
| CollectionSpec.WritableCommitFlushesEverySession | src/GNaP.Data.Scope.NHibernate/Implementation/NHibernateSessionCollection.cs:102-109 | A read/write Commit flushes every session, including those after a failing one |
| CollectionSpec.OnlyWritableCommitFlushes | src/GNaP.Data.Scope.NHibernate/Implementation/NHibernateSessionCollection.cs:106-109 | A read-only Commit and a Rollback never flush |
| CollectionSpec.RollbackTouchesOnlyRecordedTransactions | src/GNaP.Data.Scope.NHibernate/Implementation/NHibernateSessionCollection.cs:144-165 | Every call a Rollback makes is a rollback or dispose of a transaction recorded for one of the sessions |
| CollectionSpec.RollbackNeverFlushesOrCommits | src/GNaP.Data.Scope.NHibernate/Implementation/NHibernateSessionCollection.cs:144-165 | A Rollback neither flushes nor commits |
| CollectionSpec.RunErrorIsLastFailure | src/GNaP.Data.Scope.NHibernate/Implementation/NHibernateSessionCollection.cs:98-129 | The loop rethrows nothing iff no iteration failed; otherwise the exception of an iteration after which none failed (the last, not the first) |
| CollectionSpec.StepErrorIffSomeCallFailed | src/GNaP.Data.Scope.NHibernate/Implementation/NHibernateSessionCollection.cs:104-122 | An iteration captures nothing exactly when none of its calls threw |
| CollectionSpec.RunErrorIffSomeCallFailed | src/GNaP.Data.Scope.NHibernate/Implementation/NHibernateSessionCollection.cs:98-129 | A Commit or Rollback loop rethrows nothing exactly when none of its calls threw |
| CollectionSpec.OpenAndBind | src/GNaP.Data.Scope.NHibernate/Implementation/NHibernateSessionCollection.cs:47-50 | Opens then binds a session, stopping at the first throw; succeeds exactly when both calls did, leaving the session bound |
| CollectionSpec.CommitSession | src/GNaP.Data.Scope.NHibernate/Implementation/NHibernateSessionCollection.cs:104-122 | One Commit iteration makes exactly the calls StepEvents gives and captures the failure of its last call, if it threw |
| CollectionSpec.RollbackSession | src/GNaP.Data.Scope.NHibernate/Implementation/NHibernateSessionCollection.cs:152-164 | One Rollback iteration makes exactly the calls StepEvents gives and captures the failure of its last call, if it threw |
| CollectionSpec.RunLoop | src/GNaP.Data.Scope.NHibernate/Implementation/NHibernateSessionCollection.cs:98-123 | The loop makes exactly the calls RunEvents gives for the sessions in `Values` order, and ends holding RunError, the last captured exception |
| SessionCollections.SessionCollection.constructor | src/GNaP.Data.Scope.NHibernate/Implementation/NHibernateSessionCollection.cs:21-31 | An empty, undisposed, uncompleted collection with the given read-only flag and isolation level |
| SessionCollections.SessionCollection.Store | src/GNaP.Data.Scope.NHibernate/Implementation/NHibernateSessionCollection.cs:52-57 | The session is added under its key at the end of the enumeration order and set to FlushMode.Never exactly when the collection is read-only |
| SessionCollections.SessionCollection.Open | src/GNaP.Data.Scope.NHibernate/Implementation/NHibernateSessionCollection.cs:47-65 | A new key's calls are OpenEvents; the session is cached iff opened and bound; a transaction is recorded iff begun with an isolation level; a cached session is bound and FlushMode.Never iff read-only |
| SessionCollections.SessionCollection.Get | src/GNaP.Data.Scope.NHibernate/Implementation/NHibernateSessionCollection.cs:33-66 | Disposed: ObjectDisposed and nothing changes; a cached key returns the same session and calls nothing; a new key behaves as Open |
| SessionCollections.SessionCollection.GetFromFactory | src/GNaP.Data.Scope.NHibernate/Implementation/NHibernateSessionCollection.cs:68-72 | Same contract as Get |
| SessionCollections.SessionCollection.RunSteps | src/GNaP.Data.Scope.NHibernate/Implementation/NHibernateSessionCollection.cs:98-165 | The Commit or Rollback loop over the collection's sessions makes the calls RunEvents gives and ends with RunError |
| SessionCollections.SessionCollection.Conclude | src/GNaP.Data.Scope.NHibernate/Implementation/NHibernateSessionCollection.cs:125-126 | The transaction table is empty and the collection completed |
| SessionCollections.SessionCollection.Commit | src/GNaP.Data.Scope.NHibernate/Implementation/NHibernateSessionCollection.cs:74-132 | ObjectDisposed first, then InvalidOperation once completed, with nothing changed; otherwise the loop's calls, transactions cleared, completed, and the last captured error rethrown or 0 returned |
| SessionCollections.SessionCollection.Rollback | src/GNaP.Data.Scope.NHibernate/Implementation/NHibernateSessionCollection.cs:134-172 | ObjectDisposed, then InvalidOperation, with nothing changed; otherwise the rollback loop's calls, transactions cleared, completed, and the last captured error rethrown |
| SessionCollections.SessionCollection.DisposeSessions | src/GNaP.Data.Scope.NHibernate/Implementation/NHibernateSessionCollection.cs:196-206 | Every session is disposed in `Values` order, one call each, errors swallowed |
| SessionCollections.SessionCollection.Complete | src/GNaP.Data.Scope.NHibernate/Implementation/NHibernateSessionCollection.cs:183-194 | An uncompleted collection runs the read-only Commit loop when read-only and the Rollback loop otherwise, errors swallowed, and ends completed |
| SessionCollections.SessionCollection.Dispose | src/GNaP.Data.Scope.NHibernate/Implementation/NHibernateSessionCollection.cs:174-210 | Never throws; a second call changes nothing; otherwise completes an uncompleted collection (commit if read-only, rollback otherwise), disposes every session, clears the dictionary and is disposed |
| ContextCollections.ContextCollection.constructor | src/GNaP.Data.Scope.NHibernate/Implementation/NHibernateContextCollection.cs:20-29 | An empty, undisposed, uncompleted collection with the given read-only flag and isolation level |
| ContextCollections.ContextCollection.Store | src/GNaP.Data.Scope.NHibernate/Implementation/NHibernateContextCollection.cs:47-52 | The session is added under its key at the end of the enumeration order and set to FlushMode.Never exactly when read-only |
| ContextCollections.ContextCollection.Open | src/GNaP.Data.Scope.NHibernate/Implementation/NHibernateContextCollection.cs:43-61 | A new key's calls are OpenEvents; cached iff opened and bound; a transaction recorded iff begun with an isolation level |
| ContextCollections.ContextCollection.Get | src/GNaP.Data.Scope.NHibernate/Implementation/NHibernateContextCollection.cs:31-62 | Disposed: ObjectDisposed with nothing changed; a cached key returns the same session with nothing called; a new key whose factory is not an IContextFactory fails the cast with nothing changed; otherwise as Open |
| ContextCollections.ContextCollection.GetFromFactory | src/GNaP.Data.Scope.NHibernate/Implementation/NHibernateContextCollection.cs:64-67 | Same contract as Get |
| ContextCollections.ContextCollection.GetWithoutFactory | src/GNaP.Data.Scope.NHibernate/Implementation/NHibernateContextCollection.cs:69-72 | Always NotSupported |
| ContextCollections.ContextCollection.RunSteps | src/GNaP.Data.Scope.NHibernate/Implementation/NHibernateContextCollection.cs:135-201 | The Commit or Rollback loop makes the calls RunEvents gives and ends with RunError |
| ContextCollections.ContextCollection.Conclude | src/GNaP.Data.Scope.NHibernate/Implementation/NHibernateContextCollection.cs:162-163 | The transaction table is empty and the collection completed |
| ContextCollections.ContextCollection.Commit | src/GNaP.Data.Scope.NHibernate/Implementation/NHibernateContextCollection.cs:112-169 | ObjectDisposed, then InvalidOperation, with nothing changed; otherwise the loop's calls, transactions cleared, completed, last captured error rethrown or 0 |
| ContextCollections.ContextCollection.Rollback | src/GNaP.Data.Scope.NHibernate/Implementation/NHibernateContextCollection.cs:171-208 | ObjectDisposed, then InvalidOperation, with nothing changed; otherwise the rollback loop's calls, transactions cleared, completed, last captured error rethrown |
| ContextCollections.ContextCollection.DisposeSessions | src/GNaP.Data.Scope.NHibernate/Implementation/NHibernateContextCollection.cs:96-106 | Every session is disposed in `Values` order, errors swallowed |
| ContextCollections.ContextCollection.Complete | src/GNaP.Data.Scope.NHibernate/Implementation/NHibernateContextCollection.cs:83-94 | An uncompleted collection commits (read-only) or rolls back, errors swallowed, and ends completed |
| ContextCollections.ContextCollection.Dispose | src/GNaP.Data.Scope.NHibernate/Implementation/NHibernateContextCollection.cs:74-110 | Never throws; a second call changes nothing; otherwise completes (commit if read-only, rollback otherwise), disposes every session, clears the dictionary and is disposed |
| ScopeSpec.Admit | src/GNaP.Data.Scope.NHibernate/Implementation/SessionScope.cs:34-56 | Argument iff an isolation level meets JoinExisting (checked first, whatever the ambient scope); ArgumentNull iff no factory; InvalidOperation iff a read/write scope joins a read-only ambient one; nested iff joining an existing scope, which then has no isolation level |
| ScopeSpec.JoiningArgs | src/GNaP.Data.Scope.NHibernate/Implementation/SessionScope.cs:20-32 | The short constructors join with no isolation level and no interceptor: never Argument, and nested whenever the ambient scope allows the join |
| ScopeSpec.CreateEvents | src/GNaP.Data.Scope.NHibernate/Implementation/SessionScope.cs:57-91 | The lazy factory opens a session and, only if that worked, begins a transaction at the scope's isolation level |
| ScopeSpec.CreateResult | src/GNaP.Data.Scope.NHibernate/Implementation/SessionScope.cs:57-91 | The lazy session is created (with the opened session) exactly when every call succeeded; otherwise it caches the failure of the call that threw |
| ScopeSpec.CommitEvents | src/GNaP.Data.Scope.NHibernate/Implementation/SessionScope.cs:223-247 | Commit first; a rollback only after a failed commit; the transaction is disposed last in every case |
| ScopeSpec.CommitError | src/GNaP.Data.Scope.NHibernate/Implementation/SessionScope.cs:223-247 | CommitInternal throws exactly when one of its calls threw, the failure of one of those calls; a failing dispose's exception always wins |
| ScopeSpec.RollbackEvents | src/GNaP.Data.Scope.NHibernate/Implementation/SessionScope.cs:249-262 | Rollback then dispose, the dispose in every case |
| ScopeSpec.RollbackError | src/GNaP.Data.Scope.NHibernate/Implementation/SessionScope.cs:249-262 | RollbackInternal throws exactly when one of its calls threw, the failure of one of those calls |
| ScopeSpec.FinishEvents | src/GNaP.Data.Scope.NHibernate/Implementation/SessionScope.cs:102-128 | Auto-completion makes no call without an active transaction, never flushes, and never commits a read/write scope |
| ScopeSpec.ReleaseEvents | src/GNaP.Data.Scope.NHibernate/Implementation/SessionScope.cs:130-136 | Nothing without a created, owned session; Close exactly when it is open; Dispose last unless the Close threw |
| Scopes.LazySession.constructor | src/GNaP.Data.Scope.NHibernate/Implementation/SessionScope.cs:57-91 | A lazy session that is not yet created, with the scope's origin, read-only flag and isolation level |
| Scopes.LazySession.Value | src/GNaP.Data.Scope.NHibernate/Implementation/SessionScope.cs:57-91 | First access makes CreateEvents' calls and caches CreateResult; a created session is open, default read-only iff the scope is, with an active transaction; later accesses call nothing and return the cached session or exception |
| Scopes.Scope.Make | src/GNaP.Data.Scope.NHibernate/Implementation/SessionScope.cs:44-91 | A fresh identifier, not disposed, not completed, with the given parent and session |
| Scopes.Scope.Root | src/GNaP.Data.Scope.NHibernate/Implementation/SessionScope.cs:54-56 | Following joined parents reaches a non-nested scope with the same session, read-only only if this scope is |
| Scopes.Scope.Open | src/GNaP.Data.Scope.NHibernate/Implementation/SessionScope.cs:34-94 | Fails iff Admit does, with its error and the store unchanged; otherwise a fresh scope whose parent is the previous ambient scope, sharing its session when nested or with a fresh uncreated one, now ambient and in the table |
| Scopes.Scope.Session | src/GNaP.Data.Scope.NHibernate/Implementation/SessionScope.cs:18 | The shared lazy session's value, as LazySession.Value |
| Scopes.Scope.CommitInternal | src/GNaP.Data.Scope.NHibernate/Implementation/SessionScope.cs:223-247 | No call unless the session was created and has an active transaction; otherwise CommitEvents' calls and CommitError's exception |
| Scopes.Scope.RollbackInternal | src/GNaP.Data.Scope.NHibernate/Implementation/SessionScope.cs:249-262 | No call unless there is an active transaction; otherwise RollbackEvents' calls and RollbackError's exception |
| Scopes.Scope.SaveChanges | src/GNaP.Data.Scope.NHibernate/Implementation/SessionScope.cs:206-221 | ObjectDisposed when disposed, InvalidOperation when completed, nothing called; a nested scope completes without calls; otherwise commits and is completed iff the commit threw nothing |
| Scopes.Scope.Finish | src/GNaP.Data.Scope.NHibernate/Implementation/SessionScope.cs:102-128 | Commits a read-only scope and rolls back a read/write one, swallowing errors, and marks it completed |
| Scopes.Scope.Release | src/GNaP.Data.Scope.NHibernate/Implementation/SessionScope.cs:130-136 | ReleaseEvents' calls, throwing the failure of the last one if it threw |
| Scopes.Scope.Unlink | src/GNaP.Data.Scope.NHibernate/Implementation/SessionScope.cs:139-203 | InvalidOperation with nothing changed unless this scope is ambient; otherwise its entry leaves the table, the parent becomes current again (and is tracked as Restore says) unless it is disposed, in which case no scope is ambient; then disposed |
| Scopes.Scope.Leave | src/GNaP.Data.Scope.NHibernate/Implementation/SessionScope.cs:130-203 | Release's calls; a failure there is thrown with the store and flag unchanged; otherwise Unlink's outcome: the ordering error, or the scope's entry removed, the parent current and tracked again (no ambient scope if the parent is disposed) and the scope disposed |
| Scopes.Scope.Dispose | src/GNaP.Data.Scope.NHibernate/Implementation/SessionScope.cs:96-204 | Idempotent; a nested scope makes no call; an unfinished owner makes FinishEvents' then ReleaseEvents' calls and is completed; a release failure escapes and leaves it undisposed and ambient; then the ordering error, or the scope's entry removed from the table and the parent ambient again (none if the parent is disposed), and disposed |
| Scopes.Restore | src/GNaP.Data.Scope.NHibernate/Implementation/SessionScope.cs:369 | GetValue adds the scope under its identifier only if the identifier is absent, and keeps every existing entry |
| Scopes.AmbientStore.constructor | src/GNaP.Data.Scope.NHibernate/Implementation/SessionScope.cs:345-347 | No ambient identifier and an empty table |
| Scopes.AmbientStore.Ambient | src/GNaP.Data.Scope.NHibernate/Implementation/SessionScope.cs:399-426 | Null exactly when no identifier is held or the table has no entry for it; otherwise that entry |
| Scopes.AmbientStore.AmbientReadOnly | src/GNaP.Data.Scope.NHibernate/Implementation/SessionScope.cs:46-49 | None exactly when there is no ambient scope, else its read-only flag |
| Scopes.AmbientStore.SetAmbient | src/GNaP.Data.Scope.NHibernate/Implementation/SessionScope.cs:355-370 | Null is refused with ArgumentNull and no change; the current scope again changes nothing; otherwise the scope becomes current and is tracked as Restore says |
| Scopes.AmbientStore.RemoveAmbient | src/GNaP.Data.Scope.NHibernate/Implementation/SessionScope.cs:376-385 | Drops the current identifier's entry and clears the slot |
| Scopes.AmbientStore.HideAmbient | src/GNaP.Data.Scope.NHibernate/Implementation/SessionScope.cs:391-394 | Clears the slot, so there is no ambient scope, but keeps the table |
| Scopes.AmbientStore.Collect | src/GNaP.Data.Scope.NHibernate/Implementation/SessionScope.cs:413-424 | A weak-table entry disappears; the slot is kept, so GetAmbientScope then yields null |
| ReadOnlyScopes.ReadOnlyArgs | src/GNaP.Data.Scope.NHibernate/Implementation/SessionReadOnlyScope.cs:35-38 | The wrapped scope is always read-only, with the caller's other arguments, so it is never refused for nesting |
| ReadOnlyScopes.JoiningReadOnlyArgs | src/GNaP.Data.Scope.NHibernate/Implementation/SessionReadOnlyScope.cs:20-23 | Joins the existing scope with no isolation level: admitted always, nested iff a scope is ambient |
| ReadOnlyScopes.IsolatedReadOnlyArgs | src/GNaP.Data.Scope.NHibernate/Implementation/SessionReadOnlyScope.cs:25-28 | ForceCreateNew with the level: always admitted, never nested |
| ReadOnlyScopes.NoInterceptorReadOnlyArgs | src/GNaP.Data.Scope.NHibernate/Implementation/SessionReadOnlyScope.cs:30-33 | The caller's joining option and level, no interceptor, read-only |
| ReadOnlyScopes.SessionReadOnlyScope.Wrap | src/GNaP.Data.Scope.NHibernate/Implementation/SessionReadOnlyScope.cs:16-38 | Holds the given scope |
| ReadOnlyScopes.SessionReadOnlyScope.Open | src/GNaP.Data.Scope.NHibernate/Implementation/SessionReadOnlyScope.cs:35-38 | Fails iff Admit fails on the arguments with readOnly forced true; otherwise the wrapped scope is fresh, read-only and ambient |
| ReadOnlyScopes.SessionReadOnlyScope.Session | src/GNaP.Data.Scope.NHibernate/Implementation/SessionReadOnlyScope.cs:18 | Exactly the wrapped scope's session |
| ReadOnlyScopes.SessionReadOnlyScope.Dispose | src/GNaP.Data.Scope.NHibernate/Implementation/SessionReadOnlyScope.cs:40-43 | Scope.Dispose's contract for the wrapped scope (result, disposed flag, ordering error, escaping release failure, ambient restoration); an unfinished owning scope takes the commit path, never the rollback one, and ends completed |
| ScopeFactories.New | src/GNaP.Data.Scope.NHibernate/Implementation/SessionScopeFactory.cs:11-14 | ArgumentNull exactly when the session factory is null; otherwise holds it |
| ScopeFactories.Create | src/GNaP.Data.Scope.NHibernate/Implementation/SessionScopeFactory.cs:16-19 | Read/write, caller's option, no level, the held factory; refused exactly when joining a read-only ambient scope |
| ScopeFactories.CreateReadOnly | src/GNaP.Data.Scope.NHibernate/Implementation/SessionScopeFactory.cs:21-24 | Read-only, caller's option, no level, the held factory; never refused |
| ScopeFactories.CreateReadOnlyWithIsolationLevel | src/GNaP.Data.Scope.NHibernate/Implementation/SessionScopeFactory.cs:26-29 | Read-only, ForceCreateNew, the level, the held factory; always admitted as a new scope |
| ScopeFactories.CreateWithIsolationLevel | src/GNaP.Data.Scope.NHibernate/Implementation/SessionScopeFactory.cs:31-34 | Read/write, ForceCreateNew, the level, the held factory; always admitted as a new scope, so never the isolation/join Argument error |
| Locators.Get | src/GNaP.Data.Scope.NHibernate/Implementation/AmbientSessionLocator.cs:15-19 | Null with no call when no scope is ambient; otherwise the session of the outermost scope the ambient one joined, created on first access; the ambient scope does not change |
| Locators.GetAfterHide | src/GNaP.Data.Scope.NHibernate/Implementation/AmbientSessionLocator.cs:17-18 | After HideAmbientScope, Get returns null and calls nothing although the scope is still in the table |

## Left out

- NHibernate itself (`ISession`, `ITransaction`, `ISessionFactory.OpenSession`, `WithOptions().Interceptor`, `CurrentSessionContext.Bind`, `FlushMode`) is the opaque `Provider.Engine`; each call may fail, nondeterministically, and only the ghost state the scope manager relies on is kept.
- `Activator.CreateInstance<TFactory>()` and `contextFactory.Create()` in the collections' `Get` are folded into the `OpenSession` call: a failure of either is a failure of that call.
- The collections' `Commit` always returns 0; NHibernate has no change count to report, and the model returns 0 too.
- `CallContext` flow propagation (async points, app-domain boundaries, threads) is runtime behaviour; the model has one logical flow with one ambient slot.
- `ConditionalWeakTable` garbage collection is runtime memory management; `AmbientStore.Collect` stands in for an entry disappearing at any moment.
- Diagnostics (`Debug.WriteLine`, `Environment.StackTrace`) and `ExceptionDispatchInfo` stack preservation are I/O; an exception is only a value here.
- SessionScopeFactory.SuppressAmbientScope returns an `AmbientContextSuppressor`, whose code is not part of this model; only `HideAmbientScope`, which it builds on, is modelled.
- The generic type arguments (`TDbContext`, `TFactory`) are a `FactoryType` value; the final `(TDbContext)` cast of an `ISession` is not modelled because every session stored is an `ISession`.
- Scopes.Scope.CommitInternal, RollbackInternal, Release, Dispose: the contracts state the calls made (the log) and the exceptions, not the transaction and session status the engine ends with.
- ContextCollections.ContextCollection.Dispose and SessionCollections.SessionCollection.Dispose: the contracts state the calls and the cleared dictionary, not the state of the disposed session handles.
- The collections' loops visit sessions in the order their keys were added (`CollectionSpec.Enumerates`). That is how .NET's `Dictionary<TKey,TValue>.Values` enumerates a dictionary that has only had entries added since it was created or cleared, which is the case here, but the framework does not document it as a guarantee. Which captured exception is the "last" one depends on this order.
- Scopes.Scope.Dispose, Leave and Unlink, and ReadOnlyScopes.SessionReadOnlyScope.Dispose, state that the parent is the ambient scope again only when the table's entry for the parent's identifier, if there is one, is the parent. The model does not track that no two scopes share an `InstanceIdentifier`. The table itself is stated exactly in every case, through `Restore`.
- The wrapper classes `NHibernateScopeFactory`, `NHibernateReadOnlyScope`, `NHibernateContextReadOnlyScope`, `NHibernateAmbientLocator` and `NHibernateAmbientContextLocator` delegate to classes that are not part of this model.
- The interface files declare members only, and the demo project is console I/O and ORM mapping.
