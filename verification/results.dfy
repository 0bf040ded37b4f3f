/** Failure-compatible wrappers shared by the serializer model. */
module Results {

  /** A value that may be missing (an annotation that is not present, a key not in a map). */
  datatype Option<+T> = None | Some(value: T) {

    /** The wrapped value, or `default` when there is none. */
    function GetOr(default: T): T {
      match this
      case Some(v) => v
      case None => default
    }
  }

  /** Why a serialization call aborts. Either failure aborts the whole document. */
  datatype SerializationError =
      /** A map is bound to a filter id that no registered filter answers to. */
    | UnknownFilter(filterId: string)
      /** A custom filter raised while deciding or rewriting the entry under `key`. */
    | FilterFailed(key: string)

  /** The outcome of a serialization step; usable with `:-`. */
  datatype Result<+T> = Success(value: T) | Failure(error: SerializationError) {

    predicate IsFailure() {
      Failure?
    }

    function PropagateFailure<U>(): Result<U>
      requires Failure?
    {
      Failure(error)
    }

    function Extract(): T
      requires Success?
    {
      value
    }
  }
}
