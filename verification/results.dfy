/** Failure kinds of the rules engine and the wrappers that carry them.

    Every guard that the game code raises as an exception is a `Result`
    here: a failed operation returns `Err(kind)` and, because every state
    is an immutable value, leaves the state it was given unchanged. */
module Results {

  /** The distinguishable failure kinds. */
  datatype Error =
    | InvalidArgument   // non-positive length or size, too few players, self-attack
    | OutOfBounds       // a coordinate or an area corner outside the grid
    | AreaTaken         // the overlap test rejects a placement
    | AlreadyAttacked   // the target cell is not attackable
    | InvalidState      // the game status forbids the operation
    | UnknownPlayer     // the defender is not an active player
    | NotYourTurn       // the attacker is not the player in turn

  /** Either the value an operation produced or the kind of its failure. */
  datatype Result<+T> = Ok(value: T) | Err(error: Error) {

    predicate IsFailure() {
      Err?
    }

    function PropagateFailure<U>(): Result<U>
      requires Err?
    {
      Err(error)
    }

    function Extract(): T
      requires Ok?
    {
      value
    }
  }

  /** An optional value: the source's `null` / `undefined`. */
  datatype Option<+T> = None | Some(value: T)
}
