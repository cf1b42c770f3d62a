/** Optional values and refusals. */
module Wrappers {

  datatype Option<+T> = None | Some(value: T)

  /** Why the database, or the code in front of it, turns a request down. */
  datatype Refusal =
    | UniqueViolated
    | ForeignKeyViolated
    | ContainerNotFound
    | ItemNotFound
    | TagNotFound
    | TagNotAssociated
    | TagInUse
    | UnsupportedVersion

  datatype Result<+T> = Ok(value: T) | Refused(why: Refusal) {
    predicate IsFailure() {
      Refused?
    }

    function PropagateFailure<U>(): Result<U>
      requires Refused?
    {
      Refused(why)
    }

    function Extract(): T
      requires Ok?
    {
      value
    }
  }
}
