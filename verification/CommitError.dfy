/**
Classification of a failed commit attempt
(crates/teodb-catalog/src/adapter/commit_error.rs and `guard_result` in
crates/teodb-catalog/src/adapter/commit.rs).
*/
module CommitError {
  import opened Wrappers
  import opened AppendGuard

  datatype ErrorKind = CatalogCommitConflicts | PreconditionFailed | Unexpected | OtherKind(code: nat)

  // One link of an error's cause chain: a transport error that says the
  // connection was never made, or anything else.
  datatype Cause = ConnectFailure | OtherCause

  datatype IcebergError = IcebergError(kind: ErrorKind, retryable: bool, causes: seq<Cause>)

  datatype AttemptError = ConflictError | StateUnknownError | RetryableBeforeCommit | FatalError

  /** Walk the cause chain looking for evidence that nothing was dispatched. */
  method IsPreDispatchConnectFailure(error: IcebergError) returns (found: bool)
    ensures found <==> ConnectFailure in error.causes
  {
    var source := error.causes;
    while source != []
      invariant |source| <= |error.causes| && source == error.causes[|error.causes| - |source|..]
      invariant ConnectFailure in error.causes ==> ConnectFailure in source
      decreases |source|
    {
      if source[0] == ConnectFailure {
        return true;
      }
      source := source[1..];
    }
    return false;
  }

  function Classify(error: IcebergError): (c: AttemptError)
    ensures c == StateUnknownError <==> error.kind == Unexpected && ConnectFailure !in error.causes
    ensures c == ConflictError <==> error.kind == CatalogCommitConflicts || error.kind == PreconditionFailed
    ensures c == RetryableBeforeCommit <==>
            || (error.kind == Unexpected && ConnectFailure in error.causes)
            || (error.kind.OtherKind? && error.retryable)
  {
    match error.kind
    case CatalogCommitConflicts => ConflictError
    case PreconditionFailed => ConflictError
    case Unexpected => if ConnectFailure in error.causes then RetryableBeforeCommit else StateUnknownError
    case OtherKind(_) => if error.retryable then RetryableBeforeCommit else FatalError
  }

  // What a commit attempt reports to its caller.
  datatype AppendResult = Ok | Rejected(verdict: Verdict) | Conflict | StateUnknown | ExternalRetryable | Fatal

  /** An answer that tells the caller the append was not published. */
  predicate DefiniteFailure(r: AppendResult) {
    !r.Ok? && !r.StateUnknown?
  }

  /** What the caller is told: a stored rejection wins over the error that carried
      it, an AlreadyCommitted rejection is a success, and an ambiguous error is
      never turned into a definite failure. */
  function ReportOf(rejection: Option<Verdict>, error: IcebergError): (r: AppendResult)
    ensures rejection == Some(AlreadyCommitted) ==> r == Ok
    ensures rejection.Some? && rejection != Some(AlreadyCommitted) ==> r == Rejected(rejection.value)
    ensures rejection.None? ==> (DefiniteFailure(r) <==> Classify(error) != StateUnknownError)
    ensures rejection.None? ==> (r == Conflict <==> Classify(error) == ConflictError)
    ensures rejection.None? ==> (r == ExternalRetryable <==> Classify(error) == RetryableBeforeCommit)
    ensures rejection.None? ==> !r.Ok? && !r.Rejected?
  {
    if rejection.Some? then
      if rejection.value.AlreadyCommitted? then Ok else Rejected(rejection.value)
    else
      match Classify(error)
      case ConflictError => Conflict
      case StateUnknownError => StateUnknown
      case RetryableBeforeCommit => ExternalRetryable
      case FatalError => Fatal
  }

  /** `guard_result`: consumes the guard's rejection. */
  method GuardResult(guard: AppendAttemptGuard, error: IcebergError) returns (r: AppendResult)
    modifies guard`rejection
    ensures guard.rejection == None
    ensures r == ReportOf(old(guard.rejection), error)
  {
    var rejection := guard.TakeRejection();
    if rejection.Some? {
      return if rejection.value.AlreadyCommitted? then Ok else Rejected(rejection.value);
    }
    var connect := IsPreDispatchConnectFailure(error);
    r := match error.kind
         case CatalogCommitConflicts => Conflict
         case PreconditionFailed => Conflict
         case Unexpected => if connect then ExternalRetryable else StateUnknown
         case OtherKind(_) => if error.retryable then ExternalRetryable else Fatal;
  }
}
