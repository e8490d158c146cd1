/** The exceptions the scope manager throws, as values. */
module Exceptions {
  import opened Wrappers
  import opened Provider

  /** Which single-use or ordering rule an InvalidOperationException reports. */
  datatype Misuse =
    | NestReadWriteInReadOnly   // a read/write scope joining a read-only ambient scope
    | SaveChangesTwice          // SaveChanges() on a completed scope
    | FinishTwice               // Commit() or Rollback() on a completed collection
    | DisposeOutOfOrder         // disposing a scope that is not the ambient one

  datatype Error =
    | ArgumentNull(param: string)
    | Argument                          // isolation level combined with JoinExisting
    | InvalidOperation(misuse: Misuse)
    | ObjectDisposed(objectName: string)
    | NotSupported
    | InvalidCast
    | ProviderFailure(call: Call)       // whatever NHibernate threw from `call`

  /**
   * The exception a block of provider calls ends with when the block stops at its first
   * throwing call: the failure of the last call made, if that call threw.
   */
  function FailureOf(evs: seq<Event>): (r: Option<Error>)
    ensures r.Some? <==> evs != [] && !evs[|evs| - 1].ok
    ensures r.Some? ==> r.value == ProviderFailure(evs[|evs| - 1].call)
  {
    if evs != [] && !evs[|evs| - 1].ok then Some(ProviderFailure(evs[|evs| - 1].call)) else None
  }
}
