/** AmbientSessionLocator: the session of the ambient scope, if there is one. */
module Locators {
  import opened Wrappers
  import opened Provider
  import opened Exceptions
  import opened ScopeSpec
  import opened Scopes

  /**
   * Get: `Ok(None)` (null) when no scope is ambient; otherwise the ambient scope's session,
   * created on first access, which for a joined scope is the session of the outermost
   * non-nested scope it joined.  Which scope is ambient does not change.
   */
  method Get(store: AmbientStore) returns (r: Result<Option<SessionId>, Error>, ghost o: CreateOutcome)
    requires store.Valid()
    modifies store.Sessions(), store.engine`log, store.engine`sessions, store.engine`transactions, store.engine`next
    ensures old(store.Ambient()) == null ==> r == Ok(None) && store.engine.log == old(store.engine.log)
    ensures old(store.Ambient()) != null ==>
              var root := old(store.Ambient()).Root();
              !root.session.state.NotCreated?
              && (root.session.state.Created? ==> r == Ok(Some(root.session.state.session)))
              && (root.session.state.Faulted? ==> r == Err(root.session.state.error))
    ensures store.Ambient() == old(store.Ambient())
  {
    o := CreateOutcome(false, 0, false);
    var ambient := store.Ambient();
    if ambient == null {
      return Ok(None), o;
    }
    var s;
    s, o := ambient.Session();
    r := if s.Ok? then Ok(Some(s.value)) else Err(s.error);
  }

  /**
   * HideAmbientScope followed by Get: the locator finds nothing although the hidden scope is
   * still in the table, and nothing is opened.
   */
  method GetAfterHide(store: AmbientStore) returns (r: Result<Option<SessionId>, Error>)
    requires store.Valid()
    modifies store`current, store.Sessions(), store.engine`log, store.engine`sessions,
             store.engine`transactions, store.engine`next
    ensures r == Ok(None)
    ensures store.table == old(store.table) && store.engine.log == old(store.engine.log)
  {
    store.HideAmbient();
    ghost var o;
    r, o := Get(store);
  }
}
