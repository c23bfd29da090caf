/** Failure-carrying values: an operation that can fail returns an error kind instead of a value. */
module Results {

  datatype Option<+T> = None | Some(value: T)

  /** The failures the symbolic state and the property-distance graph report to their callers. */
  datatype ErrorKind =
    | SolverFailure        // the decision procedure answered neither SAT nor UNSAT
    | MultipleProperties   // more than one assertion location in the property graph
    | NoProperty           // no assertion location in the property graph

  datatype Result<+T> = Ok(value: T) | Err(error: ErrorKind)
}
