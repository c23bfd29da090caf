/**
 * The two operations of the symbolic state that consult the decision
 * procedure. The decision procedure is an oracle from a query to an answer;
 * a query is the accumulated path constraint (the history) with, for an
 * assertion check, the guard that is asserted to be false.
 */
module SymexSolver {
  import opened Results
  import opened Program
  import opened History
  import opened SymexState

  datatype SolverResult = Satisfiable | Unsatisfiable | SolverError

  /** What is handed to the decision procedure: the path constraint and,
      optionally, an expression set to false. */
  datatype Query = Query(pathConstraint: seq<Step>, negated: Option<Expr>)

  /**
   * Whether the current path is feasible: the history alone is submitted.
   * SAT means feasible, UNSAT infeasible, and an error is a failure.
   */
  function IsFeasible(s: State, solver: Query -> SolverResult): (r: Result<bool>)
    ensures r == Ok(true) <==> solver(Query(s.history, None)) == Satisfiable
    ensures r == Ok(false) <==> solver(Query(s.history, None)) == Unsatisfiable
    ensures r.Err? <==> solver(Query(s.history, None)) == SolverError
    ensures r.Err? ==> r.error == SolverFailure
  {
    match solver(Query(s.history, None))
    case Satisfiable => Ok(true)
    case Unsatisfiable => Ok(false)
    case SolverError => Err(SolverFailure)
  }

  /**
   * Whether the assertion at the current location holds on this path
   * (`Ok(true)`: no error) or can be violated (`Ok(false)`). `read` is the
   * symbolic read of an expression in this state. A guard that reads as the
   * constant true needs no solver call; otherwise the history plus the negated
   * guard is submitted and SAT means a violation.
   */
  function CheckAssertion(s: State, locs: Locs, read: Expr -> Expr, solver: Query -> SolverResult): (r: Result<bool>)
    requires HasCurrentThread(s) && Pc(s) < |locs.locVector|
    requires GetInstruction(s, locs).isAssert
    ensures var g := read(GetInstruction(s, locs).guard);
            IsTrue(g) ==> r == Ok(true)
    ensures var g := read(GetInstruction(s, locs).guard);
            !IsTrue(g) ==>
              (r == Ok(false) <==> solver(Query(s.history, Some(g))) == Satisfiable) &&
              (r == Ok(true) <==> solver(Query(s.history, Some(g))) == Unsatisfiable) &&
              (r.Err? <==> solver(Query(s.history, Some(g))) == SolverError)
    ensures r.Err? ==> r.error == SolverFailure
  {
    var assertion := read(GetInstruction(s, locs).guard);
    if IsTrue(assertion) then Ok(true)
    else
      match solver(Query(s.history, Some(assertion)))
      case Satisfiable => Ok(false)
      case Unsatisfiable => Ok(true)
      case SolverError => Err(SolverFailure)
  }

  /** A trivially true assertion is decided without the solver: any two
      decision procedures give the same answer. */
  lemma TrivialAssertionIgnoresSolver(s: State, locs: Locs, read: Expr -> Expr,
                                      solver1: Query -> SolverResult, solver2: Query -> SolverResult)
    requires HasCurrentThread(s) && Pc(s) < |locs.locVector|
    requires GetInstruction(s, locs).isAssert
    requires IsTrue(read(GetInstruction(s, locs).guard))
    ensures CheckAssertion(s, locs, read, solver1) == CheckAssertion(s, locs, read, solver2) == Ok(true)
  {
  }

  /** An assertion reported as violable was checked against the current path:
      the path constraint with the negated guard was satisfiable. An assertion
      reported as holding was either trivial or made that query unsatisfiable. */
  lemma AssertionVerdicts(s: State, locs: Locs, read: Expr -> Expr, solver: Query -> SolverResult)
    requires HasCurrentThread(s) && Pc(s) < |locs.locVector|
    requires GetInstruction(s, locs).isAssert
    ensures var g := read(GetInstruction(s, locs).guard);
            CheckAssertion(s, locs, read, solver) == Ok(false) ==>
              !IsTrue(g) && solver(Query(s.history, Some(g))) == Satisfiable
    ensures var g := read(GetInstruction(s, locs).guard);
            CheckAssertion(s, locs, read, solver) == Ok(true) ==>
              IsTrue(g) || solver(Query(s.history, Some(g))) == Unsatisfiable
  {
  }
}
