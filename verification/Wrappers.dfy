/** Optional values and the kernel-style result type used across the model. */
module Wrappers {

  datatype Option<+T> = None | Some(value: T) {
    predicate IsFailure() { None? }

    function PropagateFailure<U>(): Option<U>
      requires None?
    {
      None
    }

    function Extract(): T
      requires Some?
    {
      value
    }

    function GetOr(default: T): T {
      if Some? then value else default
    }
  }

  /** The error codes the kernel raises, with the names of the wire enum. */
  datatype ErrorCode =
    | SchemaViolation
    | UnknownHandleRef
    | UnknownSelectorRef
    | TypeMismatch
    | AmbiguousConflict
    | FieldRedacted
    | DataLeakPrevention
    | UntrustedProvenance
    | BrokenLineage
    | CostGuardRejected
    | GraphTraversalLimit

  datatype StallInfo = StallInfo(handleRef: string, availability: int, retrievalTicket: string)

  /** Why a run stopped: a rejection with its code, or a stall on a handle that is not ready. */
  datatype ExecStop = Failure(code: ErrorCode) | Stall(info: StallInfo)

  datatype Outcome<+T> = Ok(value: T) | Stop(reason: ExecStop) {
    predicate IsFailure() { Stop? }

    function PropagateFailure<U>(): Outcome<U>
      requires Stop?
    {
      Stop(reason)
    }

    function Extract(): T
      requires Ok?
    {
      value
    }
  }

  function Reject<T>(code: ErrorCode): Outcome<T> {
    Stop(Failure(code))
  }
}
