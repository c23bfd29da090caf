/**
 * The step history of one explored path, as the whole sequence of steps from
 * the start of the path to its tail. A `seq<Step>` is a value, so a copied
 * state keeps its own prefix and appends on one copy are invisible to the
 * other.
 */
module History {
  import opened Program

  /** One executed step: where, by which thread, whether hidden, whether a branch. */
  datatype Step = Step(pc: Loc, threadNr: nat, hidden: bool, isBranch: bool)

  /** The number of context switches along a history: adjacent steps run by different threads. */
  function Switches(h: seq<Step>): nat
    decreases |h|
  {
    if |h| < 2 then 0
    else Switches(h[..|h| - 1]) + (if h[|h| - 2].threadNr != h[|h| - 1].threadNr then 1 else 0)
  }

  /** Appending one step adds a switch exactly when the previous tail ran another thread. */
  lemma SwitchesAppend(h: seq<Step>, s: Step)
    ensures Switches(h + [s]) ==
              Switches(h) + (if h != [] && h[|h| - 1].threadNr != s.threadNr then 1 else 0)
  {
    if h != [] {
      assert (h + [s])[..|h|] == h;
    }
  }
}
