/**
 * The read-only program the symbolic state runs over: location references,
 * the location table and the little the symbolic state and the property-distance graph need to know about instructions
 * and expressions.
 */
module Program {

  /** A location reference: the number of an entry of the location table. */
  type Loc = nat

  /** The location a default-constructed location reference carries
      (the all-ones unsigned number). */
  const NilLoc: Loc := 0xFFFF_FFFF

  /** The successor location: the reference's number advanced by one. */
  function Next(l: Loc): Loc
  {
    l + 1
  }

  /**
   * Symbolic expressions, kept abstract: `NilExpr` is the unset value, `TrueExpr`
   * the constant true, `Symbol` an SSA name and `Other` any other expression.
   */
  datatype Expr = NilExpr | TrueExpr | Symbol(name: string) | Other(id: nat)

  /** The expression is syntactically the constant true. */
  predicate IsTrue(e: Expr)
  {
    e == TrueExpr
  }

  /** The facts about one instruction that the symbolic state and the property-distance graph consult. */
  datatype Instruction = Instruction(isAssert: bool, guard: Expr, hide: bool)

  /** One entry of the location table: its instruction and the distance annotation. */
  datatype LocEntry = LocEntry(target: Instruction, distanceToProperty: nat)

  datatype Locs = Locs(locVector: seq<LocEntry>, entryLoc: Loc)

  /** The instruction at a location of the table. */
  function InstructionAt(locs: Locs, l: Loc): Instruction
    requires l < |locs.locVector|
  {
    locs.locVector[l].target
  }
}
