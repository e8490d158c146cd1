/**
 * SessionScopeFactory: holds one session factory and chooses the arguments of every scope
 * it creates.  Each Create method is one constructor call; it is modelled by the
 * arguments it passes (Scope.Open and SessionReadOnlyScope.Open then build the scope).
 */
module ScopeFactories {
  import opened Wrappers
  import opened Provider
  import opened Exceptions
  import opened ScopeSpec
  import opened ReadOnlyScopes

  datatype SessionScopeFactory = SessionScopeFactory(sessionFactory: SessionFactory)

  /** The constructor: a null session factory is refused. */
  function New(sessionFactory: Option<SessionFactory>): (r: Result<SessionScopeFactory, Error>)
    ensures r.Err? <==> sessionFactory.None?
    ensures r.Err? ==> r.error == ArgumentNull("sessionFactory")
    ensures r.Ok? ==> r.value.sessionFactory == sessionFactory.value
  {
    if sessionFactory.None? then Err(ArgumentNull("sessionFactory"))
    else Ok(SessionScopeFactory(sessionFactory.value))
  }

  /** Create: a read/write scope with the caller's joining option and no isolation level. */
  function Create(f: SessionScopeFactory, joining: JoinOption): (r: ScopeArgs)
    ensures !r.readOnly && r.joining == joining && r.isolationLevel.None?
    ensures r.factory == Some(f.sessionFactory) && r.interceptor.None?
    // refused only when it would join a read-only ambient scope
    ensures forall amb :: Admit(r, amb).Err? <==> joining == JoinExisting && amb == Some(true)
  {
    ScopeArgs(joining, false, None, Some(f.sessionFactory), None)
  }

  /** CreateReadOnly: a read-only scope with the caller's joining option and no isolation level. */
  function CreateReadOnly(f: SessionScopeFactory, joining: JoinOption): (r: ScopeArgs)
    ensures r.readOnly && r.joining == joining && r.isolationLevel.None?
    ensures r.factory == Some(f.sessionFactory) && r.interceptor.None?
    // never refused
    ensures forall amb :: Admit(r, amb).Ok?
  {
    NoInterceptorReadOnlyArgs(joining, None, Some(f.sessionFactory))
  }

  /** CreateWithIsolationLevel: always a new read/write scope, so the level never meets joining. */
  function CreateWithIsolationLevel(f: SessionScopeFactory, level: IsolationLevel): (r: ScopeArgs)
    ensures !r.readOnly && r.joining == ForceCreateNew && r.isolationLevel == Some(level)
    ensures r.factory == Some(f.sessionFactory) && r.interceptor.None?
    ensures forall amb :: Admit(r, amb) == Ok(false)
  {
    ScopeArgs(ForceCreateNew, false, Some(level), Some(f.sessionFactory), None)
  }

  /** CreateReadOnlyWithIsolationLevel: always a new read-only scope. */
  function CreateReadOnlyWithIsolationLevel(f: SessionScopeFactory, level: IsolationLevel): (r: ScopeArgs)
    ensures r.readOnly && r.joining == ForceCreateNew && r.isolationLevel == Some(level)
    ensures r.factory == Some(f.sessionFactory) && r.interceptor.None?
    ensures forall amb :: Admit(r, amb) == Ok(false)
  {
    NoInterceptorReadOnlyArgs(ForceCreateNew, Some(level), Some(f.sessionFactory))
  }
}
