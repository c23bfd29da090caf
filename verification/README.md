# Path-based symbolic execution: state bookkeeping and property distances

This project models two sequential pieces of a path-based symbolic execution
engine and proves properties of the model in Dafny.

1. **The symbolic state** (`path_symex_statet`). It holds the modelled program
   threads (program counter, call stack of frames, thread-local variable slots,
   active flag), the shared-variable store, the index of the current thread,
   the depth / branch / thread-interleaving counters and the step history of the
   explored path. Its operations are state transformers: `initial_state`,
   `add_thread`, `disable_current_thread`, `set_pc` / `next_pc`,
   `get_var_state` (routes to the shared or the local store and grows it
   lazily), `record_step` (appends one step and detects context switches),
   `get_hide`, `is_executable`, `last_was_branch`, and the two solver-facing
   decisions `is_feasible` and `check_assertion`.
2. **The property-distance graph** (`shortest_path_grapht`). It finds the single
   assertion node (failing on none or on several), runs a layered reverse
   breadth-first search over in-edges from it, and writes each node's distance
   into the location table.

Files and modules:

| file | module | contents |
|---|---|---|
| `results.dfy` | `Results` | `Option`, `Result` and the error kinds that replace throw-by-string |
| `program.dfy` | `Program` | locations, abstract expressions, instructions, the location table |
| `history.dfy` | `History` | `Step`, and `Switches`, the number of context switches along a history |
| `symex_state.dfy` | `SymexState` | the state record and its transformers |
| `symex_solver.dfy` | `SymexSolver` | `IsFeasible` and `CheckAssertion` against a solver oracle |
| `shortest_path_graph.dfy` | `ShortestPath` | property selection, the BFS, the write-back, a worked example |

Modelling choices:

- Each state is an immutable datatype value and each transformer is a pure
  function. The history is a `seq<Step>`: appending extends the sequence, and a
  copied state keeps its own prefix. So sibling branches cannot see each other's
  appends, and the interleaving counter can be checked against the history.
- A location is a `nat` and advancing it adds one. A default-constructed
  location reference is represented by the constant `NilLoc`.
- A slot that has never been written is `DefaultVarState`: a nil value, an
  empty SSA name and an empty index set (path_symex_state.h:57-61).
- The decision procedure is an oracle `Query -> SolverResult`. A query is the
  history (the path constraint) plus, for an assertion check, the guard set to
  false. The symbolic read of the guard is a parameter `read: Expr -> Expr`.
- The BFS keeps the visited flags and distances in two sequences beside the
  unchanged node list. Its contract covers any starting flags. A node the
  caller already marked visited (other than the property) is never entered.
  For a fresh graph, `ReachesIn` / `IsDistance` are therefore the plain
  shortest reverse-path length.
- The model follows the code in two details of the graph. Unreached nodes keep
  whatever distance they had, since the code writes no separate "unreachable"
  marker. When two nodes share a location, the write-back leaves
  the later node's distance there.

## Model

| member | source | states |
|---|---|---|
| SymexState.NewState | src/path-symex/path_symex_state.h:24-37 | a fresh state has no threads, current thread 0, all counters 0, no atomic section, an empty history; it is valid, not executable, and its last step is not a branch |
| SymexState.IsExecutable | src/path-symex/path_symex_state.h:126-130 | executable exactly when some thread exists and the current thread is active; defined only when the current index is valid or there are no threads |
| SymexState.AddThread | src/path-symex/path_symex_state.h:140-144 | the thread list grows by exactly one default thread (active, no frames, no locals) at the end; earlier threads and every other field are unchanged; validity and the switch count are preserved |
| SymexState.DisableCurrentThread | src/path-symex/path_symex_state.h:146-149 | only the current thread's active flag becomes false; every other thread and field is unchanged; afterwards the state is not executable |
| SymexState.GetHide | src/path-symex/path_symex_state.h:157-169 | hidden exactly when the current instruction is marked hidden or the current thread's innermost frame belongs to a hidden function |
| SymexState.NextPc | src/path-symex/path_symex_state.h:171-174 | the current thread's pc advances by one location, and the result is the same as setting the pc to that location |
| SymexState.SetPc | src/path-symex/path_symex_state.h:176-179 | the current pc becomes the given location; other threads, the current thread's other fields and the rest of the state are unchanged; executability, validity and the switch count are kept |
| SymexState.SetPcOverwrites | src/path-symex/path_symex_state.h:176-179 | of two pc writes only the last is visible, and writing the current pc changes nothing |
| SymexState.IncreaseDepth | src/path-symex/path_symex_state.h:211-214 | the depth grows by one and nothing else changes |
| SymexState.IncreaseNoBranches | src/path-symex/path_symex_state.h:221-224 | the branch counter grows by one and nothing else changes |
| SymexState.LastWasBranch | src/path-symex/path_symex_state.h:226-229 | false on an empty history, otherwise the tail step's branch flag |
| SymexState.InitialState | src/path-symex/path_symex_state.cpp:29-42 | exactly one thread, a default thread placed at the table's entry location, current thread 0, all counters 0, empty history; the state is valid and executable and its counter matches its history |
| SymexState.GetVarState | src/path-symex/path_symex_state.cpp:66-76 | a shared variable goes to the shared store and a local one to the current thread's locals; the chosen store then has the slot, keeps its old entries, fills new slots with default values and grows only to slot+1; the other store, the other threads and the rest of the state are unchanged; an existing slot leaves the state unchanged |
| SymexState.ReadAfterWrite | src/path-symex/path_symex_state.cpp:66-76 | a value written through the slot `get_var_state` hands out is what the next access to that variable returns |
| SymexState.WriteKeepsOtherSlots | src/path-symex/path_symex_state.cpp:66-76 | writing one variable's slot leaves every other variable, shared or local, as it reads |
| SymexState.GetVarStateIdempotent | src/path-symex/path_symex_state.cpp:73-75 | a second access to the same variable finds the store already grown and changes nothing |
| SymexState.RecordStep | src/path-symex/path_symex_state.cpp:78-96 | exactly one step is appended, carrying the current pc, the current thread index and `GetHide`, and it is not a branch; the earlier history is unchanged; the interleaving counter grows exactly when a previous step exists and ran a different thread, never on the first step; nothing else changes |
| SymexState.RecordStepCountsSwitches | src/path-symex/path_symex_state.cpp:80-83 | if the interleaving counter equals the number of thread changes between consecutive steps of the history, it still does after recording a step |
| SymexSolver.IsFeasible | src/path-symex/path_symex_state.cpp:98-116 | with the history as the only constraint: SAT gives feasible, UNSAT gives infeasible, and a solver error gives a failure, never a boolean |
| SymexSolver.CheckAssertion | src/path-symex/path_symex_state.cpp:118-153 | needs an assertion at the current pc; a guard that reads as true gives "no error"; otherwise, with the history and the negated guard, SAT gives "error", UNSAT gives "no error", and a solver error gives a failure |
| SymexSolver.TrivialAssertionIgnoresSolver | src/path-symex/path_symex_state.cpp:129-131 | for a trivially true guard the answer is "no error" whatever the decision procedure would say |
| SymexSolver.AssertionVerdicts | src/path-symex/path_symex_state.cpp:134-150 | "error" implies the path constraint with the negated guard was satisfiable; "no error" implies the guard was trivial or that query was unsatisfiable |
| ShortestPath.Scan | src/symex/shortest_path_graph.cpp:64-81 | the scan fails with "no property" exactly when no node is an assertion and with "multiple properties" exactly when two nodes are; otherwise it yields the only assertion node |
| ShortestPath.FindProperty | src/symex/shortest_path_graph.cpp:64-81 | a property is found exactly when there is a unique assertion node, and then it is that node |
| ShortestPath.ExpandNode | src/symex/shortest_path_graph.cpp:33-43 | every in-neighbour of a frontier node is reached after the step; the unvisited ones get the next layer's distance and join the next frontier; nodes already reached keep their flag and distance |
| ShortestPath.ExpandFrontier | src/symex/shortest_path_graph.cpp:27-44 | after one layer the new frontier is exactly the nodes first reached at distance d, and every node below layer d has all its in-neighbours reached |
| ShortestPath.Bfs | src/symex/shortest_path_graph.cpp:12-48 | only visited flags and distances change; the property becomes visited and keeps its distance; a node the search may enter is visited exactly when it has a reverse path to the property, and then its distance is the length of the shortest one; nodes without a path, and nodes already marked, are untouched; each node is pushed at most once; there are at most as many layers as nodes |
| ShortestPath.Completeness | src/symex/shortest_path_graph.cpp:23-47 | once every reached node has been expanded, a node with a path of k edges to the property has been reached at a layer of at most k |
| ShortestPath.WriteLengthsToLocs | src/symex/shortest_path_graph.cpp:50-58 | each location entry changes at most in its distance; the last node at a location leaves its distance there; a location no node names is untouched |
| ShortestPath.DistinctLocsAllWritten | src/symex/shortest_path_graph.cpp:50-58 | when no two nodes share a location, every node's distance ends up at its own location |
| ShortestPath.GetPathLengthsToProperty | src/symex/shortest_path_graph.cpp:60-86 | no assertion or two or more give the matching error before any search; with exactly one assertion P, P is marked as the property with distance 0 and visited, every other node gets its shortest reverse-path distance to P (or is untouched if it has none), and the distances are written to the location table |
| ShortestPath.ChainExample | src/symex/shortest_path_graph.cpp:60-86 | on four locations 0→1→2→3 with location 3 the only assertion, the table ends up with distances 3, 2, 1, 0 |
| ShortestPath.ChainDistances | src/symex/shortest_path_graph.cpp:12-48 | on that line, node v has a path to the assertion and its shortest distance is 3 - v |

## Left out

- `read`, `read_no_propagate`, `instantiate_rec`, `dereference_rec`, `array_theory`, `expand_structs_and_arrays` and their helpers. They rely on expression simplification, pointer analysis and float adjustment outside the symbolic state and the property-distance graph. `CheckAssertion` takes the read as a parameter, and the read's side effect of adding to index sets is not modelled.
- The decision procedure's internals. It is an oracle. Streaming the history into a solver object is modelled as one query per call, carrying the whole history.
- The `output` functions (path_symex_state.cpp:44-64). They only print text.
- The internals of `locst`, `var_mapt` and `path_symex_historyt`. Those headers are not part of this model. A location is a `nat`, and `NilLoc` stands for a default location reference. A variable descriptor is `(number, isShared)`. The history is a `seq<Step>`.
- `pc`, `get_current_thread`, `set_current_thread`, `get_instruction` and the counter getters. They are field reads and writes, modelled as plain functions or field access.
- The default `framet` constructor. No operation here creates frames.
- `unwinding_map`, `recursion_map` and `inside_atomic_section` beyond their initial values. No operation in path_symex_state.h/.cpp changes them.
- `working_set.insert` (shortest_path_graph.cpp:72). Nothing in shortest_path_graph.cpp reads the working set.
- The instability of the reference `get_var_state` returns. The model returns the grown state and the slot's value, and a write through the reference is `SetVarState`.
- The scan in `get_path_lengths_to_property` marks the first assertion as the property before it throws on a second one. The model returns only the error, so that half-marked graph is not represented.
- The in-edges of a node are a `std::map` in the source and a `seq` here. Their order affects only the order of a frontier, never a distance.
- SymexState.IncreaseDepth: the counter is unbounded; the 32-bit unsigned wrap-around is not modelled.
- SymexState.IncreaseNoBranches: the counter is unbounded; the 32-bit unsigned wrap-around is not modelled.
- SymexState.RecordStep: the interleaving counter is unbounded; the 32-bit unsigned wrap-around is not modelled.
- SymexState.GetVarState: the slot number is unbounded; the fixed-width `number+1` wrap at path_symex_state.cpp:74 (which would empty the store and index past it) is not modelled.
- SymexState.NextPc: the location number is unbounded; wrap-around of the location reference is not modelled.
