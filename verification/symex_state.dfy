/**
 * The symbolic state of one explored path: the modelled threads with their
 * program counters, call stacks and local variables, the shared variables,
 * the step history and the exploration counters. Each state transformer is a
 * pure function from the old state to the new one.
 */
module SymexState {
  import opened Program
  import opened History

  /** The value of one variable slot: its value, its SSA name and the index set
      kept for arrays and uninterpreted functions. */
  datatype VarState = VarState(value: Expr, ssaSymbol: string, indexSet: set<Expr>)

  /** A slot that has never been written: nil value, empty name, empty index set. */
  const DefaultVarState := VarState(NilExpr, "", {})

  /** One call-stack entry. */
  datatype Frame = Frame(
    currentFunction: string,
    hiddenFunction: bool,
    returnLocation: Loc,
    returnLhs: Expr,
    returnRhs: Expr,
    savedLocalVars: map<nat, VarState>)

  /** One modelled program thread; the innermost frame is the last one. */
  datatype Thread = Thread(pc: Loc, callStack: seq<Frame>, localVars: seq<VarState>, active: bool)

  /** A freshly created thread: active, no frames, no locals, default location. */
  const DefaultThread := Thread(NilLoc, [], [], true)

  /** What the variable map says about a variable: its slot and its storage class. */
  datatype VarInfo = VarInfo(number: nat, isShared: bool)

  datatype State = State(
    threads: seq<Thread>,
    sharedVars: seq<VarState>,
    currentThread: nat,
    history: seq<Step>,
    insideAtomicSection: bool,
    noThreadInterleavings: nat,
    noBranches: nat,
    depth: nat,
    unwindingMap: map<Loc, nat>,
    recursionMap: map<string, nat>)

  /** The current thread index denotes a thread. */
  predicate HasCurrentThread(s: State)
  {
    s.currentThread < |s.threads|
  }

  /** The state invariant: the current index denotes a thread whenever a thread
      exists, and is the first index before any thread exists. */
  predicate Valid(s: State)
  {
    HasCurrentThread(s) || (s.threads == [] && s.currentThread == 0)
  }

  /** The interleaving counter equals the number of context switches recorded in the history. */
  predicate CountsSwitches(s: State)
  {
    s.noThreadInterleavings == Switches(s.history)
  }

  /** The state as the constructor leaves it. */
  function NewState(): (s: State)
    ensures s.threads == [] && s.sharedVars == [] && s.history == []
    ensures s.currentThread == 0 && !s.insideAtomicSection
    ensures s.depth == 0 && s.noBranches == 0 && s.noThreadInterleavings == 0
    ensures Valid(s) && CountsSwitches(s)
    ensures !IsExecutable(s) && !LastWasBranch(s)
  {
    State([], [], 0, [], false, 0, 0, 0, map[], map[])
  }

  /** Whether the state may be stepped: some thread exists and the current one is active. */
  function IsExecutable(s: State): (r: bool)
    requires s.threads == [] || HasCurrentThread(s)
    ensures r ==> HasCurrentThread(s) && s.threads[s.currentThread].active
    ensures HasCurrentThread(s) && s.threads[s.currentThread].active ==> r
  {
    s.threads != [] && s.threads[s.currentThread].active
  }

  function SetCurrentThread(s: State, t: nat): State
  {
    s.(currentThread := t)
  }

  /** Appends one default thread; the new thread is the last one. */
  function AddThread(s: State): (r: State)
    ensures |r.threads| == |s.threads| + 1
    ensures r.threads[..|s.threads|] == s.threads
    ensures r.threads[|s.threads|] == DefaultThread
    ensures r == s.(threads := r.threads)
    ensures Valid(s) ==> Valid(r)
    ensures CountsSwitches(s) ==> CountsSwitches(r)
  {
    s.(threads := s.threads + [DefaultThread])
  }

  /** Writes the program counter of thread `t`. */
  function SetThreadPc(s: State, t: nat, l: Loc): (r: State)
    requires t < |s.threads|
    ensures |r.threads| == |s.threads| && r.threads[t].pc == l
    ensures r.threads[t] == s.threads[t].(pc := l)
    ensures forall i :: 0 <= i < |s.threads| && i != t ==> r.threads[i] == s.threads[i]
    ensures r == s.(threads := r.threads)
  {
    s.(threads := s.threads[t := s.threads[t].(pc := l)])
  }

  /** Marks the current thread as terminated and touches nothing else. */
  function DisableCurrentThread(s: State): (r: State)
    requires HasCurrentThread(s)
    ensures |r.threads| == |s.threads|
    ensures r.threads[s.currentThread] == s.threads[s.currentThread].(active := false)
    ensures forall i :: 0 <= i < |s.threads| && i != s.currentThread ==> r.threads[i] == s.threads[i]
    ensures r == s.(threads := r.threads)
    ensures Valid(r) && !IsExecutable(r)
  {
    s.(threads := s.threads[s.currentThread := s.threads[s.currentThread].(active := false)])
  }

  /** The program counter of the current thread. */
  function Pc(s: State): Loc
    requires HasCurrentThread(s)
  {
    s.threads[s.currentThread].pc
  }

  /** The instruction at the current program counter. */
  function GetInstruction(s: State, locs: Locs): Instruction
    requires HasCurrentThread(s) && Pc(s) < |locs.locVector|
  {
    InstructionAt(locs, Pc(s))
  }

  /**
   * A step is hidden when its instruction is marked hidden, or when the current
   * thread is inside a call whose innermost frame belongs to a hidden function.
   */
  function GetHide(s: State, locs: Locs): (r: bool)
    requires HasCurrentThread(s) && Pc(s) < |locs.locVector|
    ensures GetInstruction(s, locs).hide ==> r
    ensures var cs := s.threads[s.currentThread].callStack;
            cs != [] && cs[|cs| - 1].hiddenFunction ==> r
    ensures r ==> GetInstruction(s, locs).hide ||
                  var cs := s.threads[s.currentThread].callStack;
                  cs != [] && cs[|cs| - 1].hiddenFunction
  {
    var cs := s.threads[s.currentThread].callStack;
    GetInstruction(s, locs).hide || (cs != [] && cs[|cs| - 1].hiddenFunction)
  }

  /** Advances the current thread's program counter to the next location. */
  function NextPc(s: State): (r: State)
    requires HasCurrentThread(s)
    ensures HasCurrentThread(r) && Pc(r) == Pc(s) + 1
    ensures r == SetPc(s, Pc(s) + 1)
  {
    SetThreadPc(s, s.currentThread, Next(Pc(s)))
  }

  /** Redirects the current thread's program counter. */
  function SetPc(s: State, l: Loc): (r: State)
    requires HasCurrentThread(s)
    ensures HasCurrentThread(r) && Pc(r) == l && r.currentThread == s.currentThread
    ensures |r.threads| == |s.threads|
    ensures r.threads[s.currentThread] == s.threads[s.currentThread].(pc := l)
    ensures forall i :: 0 <= i < |s.threads| && i != s.currentThread ==> r.threads[i] == s.threads[i]
    ensures r == s.(threads := r.threads)
    ensures Valid(r) && (CountsSwitches(s) ==> CountsSwitches(r))
    ensures IsExecutable(r) == IsExecutable(s)
  {
    SetThreadPc(s, s.currentThread, l)
  }

  function IncreaseDepth(s: State): (r: State)
    ensures r.depth == s.depth + 1
    ensures r.(depth := s.depth) == s
  {
    s.(depth := s.depth + 1)
  }

  function IncreaseNoBranches(s: State): (r: State)
    ensures r.noBranches == s.noBranches + 1
    ensures r.(noBranches := s.noBranches) == s
  {
    s.(noBranches := s.noBranches + 1)
  }

  /** Whether the tail of the history is a branch step; an empty history has none. */
  function LastWasBranch(s: State): (r: bool)
    ensures s.history == [] ==> !r
    ensures s.history != [] ==> (r <==> s.history[|s.history| - 1].isBranch)
  {
    s.history != [] && s.history[|s.history| - 1].isBranch
  }

  /* ---------------- variable stores ---------------- */

  /** The store a variable of the given storage class lives in. */
  function Store(s: State, shared: bool): seq<VarState>
    requires HasCurrentThread(s)
  {
    if shared then s.sharedVars else s.threads[s.currentThread].localVars
  }

  /** Replaces the store of the given storage class. */
  function WithStore(s: State, shared: bool, store: seq<VarState>): (r: State)
    requires HasCurrentThread(s)
    ensures HasCurrentThread(r) && r.currentThread == s.currentThread
    ensures Store(r, shared) == store && Store(r, !shared) == Store(s, !shared)
  {
    if shared then s.(sharedVars := store)
    else s.(threads := s.threads[s.currentThread := s.threads[s.currentThread].(localVars := store)])
  }

  /** Grows a store so that slot `n` exists, filling new slots with default values. */
  function GrowStore(store: seq<VarState>, n: nat): (r: seq<VarState>)
    ensures n < |r|
    ensures |r| == if n < |store| then |store| else n + 1
    ensures r[..|store|] == store
    ensures forall i :: |store| <= i < |r| ==> r[i] == DefaultVarState
  {
    if |store| <= n then store + seq(n + 1 - |store|, _ => DefaultVarState) else store
  }

  /** The state after a variable access, and the value of the accessed slot. */
  datatype Access = Access(state: State, value: VarState)

  /**
   * Routes a variable to the shared store or to the current thread's locals and
   * grows that store lazily so the slot exists. The earlier slots are kept, new
   * ones are default, and the other store is not touched.
   */
  function GetVarState(s: State, info: VarInfo): (r: Access)
    requires HasCurrentThread(s)
    ensures HasCurrentThread(r.state) && r.state.currentThread == s.currentThread
    ensures info.number < |Store(r.state, info.isShared)|
    ensures r.value == Store(r.state, info.isShared)[info.number]
    ensures |Store(s, info.isShared)| <= |Store(r.state, info.isShared)|
    ensures Store(r.state, info.isShared)[..|Store(s, info.isShared)|] == Store(s, info.isShared)
    ensures forall i :: |Store(s, info.isShared)| <= i < |Store(r.state, info.isShared)| ==>
              Store(r.state, info.isShared)[i] == DefaultVarState
    ensures |Store(s, info.isShared)| <= info.number ==> |Store(r.state, info.isShared)| == info.number + 1
    ensures Store(r.state, !info.isShared) == Store(s, !info.isShared)
    ensures info.number < |Store(s, info.isShared)| ==> r.state == s
    ensures |r.state.threads| == |s.threads|
    ensures forall i :: 0 <= i < |s.threads| && i != s.currentThread ==> r.state.threads[i] == s.threads[i]
    ensures r.state.threads[s.currentThread] ==
              s.threads[s.currentThread].(localVars := r.state.threads[s.currentThread].localVars)
    ensures r.state == s.(threads := r.state.threads, sharedVars := r.state.sharedVars)
  {
    var store := GrowStore(Store(s, info.isShared), info.number);
    var s' := if |Store(s, info.isShared)| <= info.number then WithStore(s, info.isShared, store) else s;
    Access(s', store[info.number])
  }

  /** Writes a slot through the access `GetVarState` hands out. */
  function SetVarState(s: State, info: VarInfo, v: VarState): (r: State)
    requires HasCurrentThread(s)
    ensures HasCurrentThread(r) && r.currentThread == s.currentThread
  {
    var a := GetVarState(s, info);
    WithStore(a.state, info.isShared, Store(a.state, info.isShared)[info.number := v])
  }

  /* ---------------- history ---------------- */

  /**
   * Appends one step for the current thread. The interleaving counter grows
   * exactly when a previous step exists and was run by another thread.
   */
  function RecordStep(s: State, locs: Locs): (r: State)
    requires HasCurrentThread(s) && Pc(s) < |locs.locVector|
    ensures |r.history| == |s.history| + 1
    ensures r.history[..|s.history|] == s.history
    ensures r.history[|s.history|] == Step(Pc(s), s.currentThread, GetHide(s, locs), false)
    ensures s.history == [] ==> r.noThreadInterleavings == s.noThreadInterleavings
    ensures s.history != [] && s.history[|s.history| - 1].threadNr != s.currentThread ==>
              r.noThreadInterleavings == s.noThreadInterleavings + 1
    ensures s.history != [] && s.history[|s.history| - 1].threadNr == s.currentThread ==>
              r.noThreadInterleavings == s.noThreadInterleavings
    ensures r == s.(history := r.history, noThreadInterleavings := r.noThreadInterleavings)
    ensures !LastWasBranch(r)
  {
    var switched := s.history != [] && s.history[|s.history| - 1].threadNr != s.currentThread;
    var s1 := if switched then s.(noThreadInterleavings := s.noThreadInterleavings + 1) else s;
    s1.(history := s1.history + [Step(Pc(s1), s1.currentThread, GetHide(s1, locs), false)])
  }

  /* ---------------- construction ---------------- */

  /** The state a new exploration starts from: one thread at the entry location. */
  function InitialState(locs: Locs): (s: State)
    ensures |s.threads| == 1 && s.currentThread == 0
    ensures s.threads[0] == DefaultThread.(pc := locs.entryLoc)
    ensures Pc(s) == locs.entryLoc
    ensures s.depth == 0 && s.noBranches == 0 && s.noThreadInterleavings == 0
    ensures s.history == [] && s.sharedVars == []
    ensures Valid(s) && IsExecutable(s) && CountsSwitches(s)
  {
    var s0 := AddThread(NewState());
    var s1 := SetThreadPc(s0, |s0.threads| - 1, locs.entryLoc);
    SetCurrentThread(s1, 0)
  }

  /* ---------------- properties across operations ---------------- */

  /** Recording a step keeps the interleaving counter equal to the number of
      context switches in the history, so starting from the initial state the
      counter counts exactly the thread changes between consecutive steps. */
  lemma RecordStepCountsSwitches(s: State, locs: Locs)
    requires HasCurrentThread(s) && Pc(s) < |locs.locVector|
    requires CountsSwitches(s)
    ensures CountsSwitches(RecordStep(s, locs))
  {
    var r := RecordStep(s, locs);
    assert r.history == s.history + [r.history[|s.history|]];
    SwitchesAppend(s.history, r.history[|s.history|]);
  }

  /** Reading a slot after writing it through the access yields the written value. */
  lemma ReadAfterWrite(s: State, info: VarInfo, v: VarState)
    requires HasCurrentThread(s)
    ensures GetVarState(SetVarState(s, info, v), info).value == v
  {
  }

  /** Writing one slot leaves every other slot, of either store, as it reads. */
  lemma WriteKeepsOtherSlots(s: State, info: VarInfo, other: VarInfo, v: VarState)
    requires HasCurrentThread(s)
    requires other.isShared != info.isShared || other.number != info.number
    ensures GetVarState(SetVarState(s, info, v), other).value == GetVarState(s, other).value
  {
    var a := GetVarState(s, info);
    var w := SetVarState(s, info, v);
    if other.isShared == info.isShared {
      var st := Store(s, other.isShared);
      if other.number < |st| {
        assert Store(a.state, other.isShared)[other.number] == st[other.number];
      }
    }
  }

  /** A second access to the same variable finds its store already large enough. */
  lemma GetVarStateIdempotent(s: State, info: VarInfo)
    requires HasCurrentThread(s)
    ensures GetVarState(GetVarState(s, info).state, info) == GetVarState(s, info)
  {
  }

  /** Only the last of two program-counter writes is visible. */
  lemma SetPcOverwrites(s: State, a: Loc, b: Loc)
    requires HasCurrentThread(s)
    ensures SetPc(SetPc(s, a), b) == SetPc(s, b)
    ensures SetPc(s, Pc(s)) == s
  {
  }
}
