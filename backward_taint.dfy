/** `backward_taint_analysis` of static_analysis_backward_pass.py: a
    depth-first walk backwards from a transmitter along `previous` and
    `sources` links, carrying the set of registers whose initial value the
    transmitter would leak, until the walk reaches the `csrrs` that opens the
    snippet. Instructions are positions in a `BackwardPass.Graph`. */
module BackwardTaint {
  import opened Wrappers
  import opened Objdump
  import opened BackwardPass

  /** A dependency set: register names, and `None` where the seed of a
      branch takes an absent `rs2`. */
  type Deps = set<Option<string>>

  /** `BackwardState`: one path of the walk. `executed[k]` is the k-th most
      recent instruction on it and `executedDeps[k]` the dependency set it
      was entered with. */
  datatype PathState = PathState(first: bool, current: nat, executed: seq<nat>, executedDeps: seq<Deps>, deps: Deps)

  /** A leaked dependency set with the path that reaches it, start first. */
  type Finding = (Deps, seq<nat>)

  /** What the analysis ends with: the list it returns, the `exit(1)` on a
      Spectre gadget (with the dependency set and the path of the state that
      meets it), the `exit(1)` on an instruction that cannot transmit, or a
      walk longer than the fuel allows. */
  datatype Outcome =
    | Findings(found: seq<Finding>)
    | Gadget(at: nat, tainted: Deps, path: seq<nat>)
    | NotATransmitter
    | OutOfFuel

  /** What one popped state does. */
  datatype Step = Skip | Leak(at: nat, tainted: Deps, path: seq<nat>) | Report(finding: Finding) | Expand(next: seq<PathState>)

  /** The initial state: the address register of a load or store, both
      source registers of a branch; nothing for other instructions. */
  function Seed(g: Graph, trans: nat): (r: Option<PathState>)
    requires trans < |g.insts|
    ensures r.None? <==> !IsTransmitter(g.insts[trans])
    ensures r.Some? ==> r.value.first && r.value.current == trans && r.value.executed == [] && r.value.executedDeps == []
    ensures r.Some? ==> r.value.deps == if g.insts[trans].isLoad || g.insts[trans].isStore
                                        then {g.insts[trans].rs1}
                                        else {g.insts[trans].rs1, g.insts[trans].rs2}
  {
    var t := g.insts[trans];
    if t.isLoad || t.isStore then Some(PathState(true, trans, [], [], {t.rs1}))
    else if t.isBranch then Some(PathState(true, trans, [], [], {t.rs1, t.rs2}))
    else None
  }

  /** `executed.index(inst)` under address equality: the most recent visit
      of an instruction with address `a`. */
  function RecentVisit(insts: seq<Instruction>, executed: seq<nat>, a: nat): (r: Option<nat>)
    ensures r.Some? ==> r.value < |executed| && executed[r.value] < |insts| && insts[executed[r.value]].address == a
    ensures r.Some? ==> forall k :: 0 <= k < r.value && executed[k] < |insts| ==> insts[executed[k]].address != a
    ensures r.None? ==> forall k :: 0 <= k < |executed| && executed[k] < |insts| ==> insts[executed[k]].address != a
  {
    if |executed| == 0 then None
    else if executed[0] < |insts| && insts[executed[0]].address == a then Some(0)
    else
      match RecentVisit(insts, executed[1..], a)
      case None => None
      case Some(k) => Some(k + 1)
  }

  /** The states pushed for the `sources` of `cur`, in order, then for its
      `previous`. */
  function Successors(g: Graph, cur: nat, deps: Deps, executed: seq<nat>, executedDeps: seq<Deps>): (r: seq<PathState>)
    requires WellFormedGraph(g) && cur < |g.insts|
    ensures forall k :: 0 <= k < |r| ==> !r[k].first && r[k].deps == deps && r[k].executed == executed
    ensures forall k :: 0 <= k < |r| ==> r[k].executedDeps == executedDeps
    ensures forall k :: 0 <= k < |r| ==> r[k].current in g.sources[cur] || g.previous[cur] == Some(r[k].current)
  {
    var srcs := g.sources[cur];
    seq(|srcs|, k requires 0 <= k < |srcs| => PathState(false, srcs[k], executed, executedDeps, deps))
    + (if g.previous[cur].Some? then [PathState(false, g.previous[cur].value, executed, executedDeps, deps)] else [])
  }

  /** The dependency set after the instruction: a later load's or store's
      address register is dropped (it is leaked there already), and a
      destination register in the set is replaced by the instruction's
      non-empty source registers. */
  function Transfer(inst: Instruction, first: bool, deps: Deps): Deps {
    var accessed := Accessed(inst, first, deps);
    if inst.rd in accessed then
      (accessed - {inst.rd})
      + (if Truthy(inst.rs1) then {inst.rs1} else {})
      + (if Truthy(inst.rs2) then {inst.rs2} else {})
    else accessed
  }

  /** The set after a load or store past the seed drops its address register. */
  function Accessed(inst: Instruction, first: bool, deps: Deps): Deps {
    if (inst.isLoad || inst.isStore) && inst.rs1 in deps && !first then deps - {inst.rs1} else deps
  }

  /** The register updates of one visit: `leaks` says the visited load or
      store writes a register of the set, otherwise `newDeps` is the
      transferred set. */
  method TransferDeps(inst: Instruction, first: bool, deps: Deps) returns (newDeps: Deps, leaks: bool)
    ensures leaks <==> inst.rd in Accessed(inst, first, deps) && (inst.isLoad || inst.isStore)
    ensures !leaks ==> newDeps == Transfer(inst, first, deps)
  {
    newDeps := deps;
    leaks := false;
    if (inst.isLoad || inst.isStore) && inst.rs1 in newDeps && !first {
      newDeps := newDeps - {inst.rs1};
    }
    if inst.rd in newDeps {
      newDeps := newDeps - {inst.rd};
      if inst.isLoad || inst.isStore {
        leaks := true;
        return;
      }
      if Truthy(inst.rs1) {
        newDeps := newDeps + {inst.rs1};
      }
      if Truthy(inst.rs2) {
        newDeps := newDeps + {inst.rs2};
      }
    }
  }

  /** The transfer only ever adds the instruction's own source registers,
      never an immediate: a tracked destination is replaced by the
      non-empty sources, and an untracked one leaves the set as the access
      step left it. */
  lemma {:induction false} TransferEffect(inst: Instruction, first: bool, deps: Deps)
    ensures Transfer(inst, first, deps) <= deps + {inst.rs1, inst.rs2}
    ensures inst.rd !in Accessed(inst, first, deps) ==> Transfer(inst, first, deps) == Accessed(inst, first, deps)
    ensures inst.rd in Accessed(inst, first, deps) ==>
              && (Truthy(inst.rs1) ==> inst.rs1 in Transfer(inst, first, deps))
              && (Truthy(inst.rs2) ==> inst.rs2 in Transfer(inst, first, deps))
              && (inst.rd in Transfer(inst, first, deps) ==>
                    (inst.rd == inst.rs1 && Truthy(inst.rs1)) || (inst.rd == inst.rs2 && Truthy(inst.rs2)))
  {
  }

  /** One iteration of the `while states` loop on the popped state. */
  function Visit(g: Graph, st: PathState): (r: Step)
    requires WellFormedGraph(g) && st.current < |g.insts|
    ensures r.Expand? ==> InGraph(g, r.next)
  {
    var inst := g.insts[st.current];
    var seen := RecentVisit(g.insts, st.executed, inst.address);
    if seen.Some? && seen.value < |st.executedDeps| && st.executedDeps[seen.value] == st.deps then Skip
    else
      var executed := [st.current] + st.executed;
      var executedDeps := [st.deps] + st.executedDeps;
      var accessed := Accessed(inst, st.first, st.deps);
      if inst.rd in accessed && (inst.isLoad || inst.isStore) then Leak(st.current, st.deps, executed)
      else
        var deps := Transfer(inst, st.first, st.deps);
        if inst.opcode == "csrrs" then Report((deps, executed))
        else if deps == {} then Expand([])
        else Expand(Successors(g, st.current, deps, executed, executedDeps))
  }

  predicate InGraph(g: Graph, stack: seq<PathState>) {
    forall k :: 0 <= k < |stack| ==> stack[k].current < |g.insts|
  }

  /** Popping the last state and pushing states in the graph keeps the
      stack in the graph. */
  lemma {:induction false} InGraphPopPush(g: Graph, stack: seq<PathState>, next: seq<PathState>)
    requires |stack| > 0 && InGraph(g, stack) && InGraph(g, next)
    ensures InGraph(g, stack[..|stack| - 1]) && InGraph(g, stack[..|stack| - 1] + next)
  {
  }

  lemma {:induction false} InGraphConcat(g: Graph, rest: seq<PathState>, next: seq<PathState>)
    requires InGraph(g, rest) && InGraph(g, next)
    ensures InGraph(g, rest + next)
  {
  }

  /** The worklist loop with at most `fuel` iterations: pop the last state,
      visit it, push what it expands to. */
  function Run(g: Graph, stack: seq<PathState>, acc: seq<Finding>, fuel: nat): Outcome
    requires WellFormedGraph(g) && InGraph(g, stack)
    decreases fuel, 0
  {
    if |stack| == 0 then Findings(acc)
    else if fuel == 0 then OutOfFuel
    else
      var st := stack[|stack| - 1];
      InGraphPopPush(g, stack, []);
      Continue(g, Visit(g, st), stack[..|stack| - 1], acc, fuel - 1)
  }

  /** The rest of the loop after a visit: skip, stop at a gadget, record a
      finding, or push the successors, then go on with what is left. */
  function Continue(g: Graph, step: Step, rest: seq<PathState>, acc: seq<Finding>, fuel: nat): Outcome
    requires WellFormedGraph(g) && InGraph(g, rest) && (step.Expand? ==> InGraph(g, step.next))
    decreases fuel, 1
  {
    match step
    case Skip => Run(g, rest, acc, fuel)
    case Leak(at, tainted, path) => Gadget(at, tainted, path)
    case Report(f) => Run(g, rest, acc + [f], fuel)
    case Expand(next) =>
      InGraphConcat(g, rest, next);
      Run(g, rest + next, acc, fuel)
  }

  /** The whole analysis of transmitter `trans`. */
  function Analysis(g: Graph, trans: nat, fuel: nat): Outcome
    requires WellFormedGraph(g) && trans < |g.insts|
  {
    match Seed(g, trans)
    case None => NotATransmitter
    case Some(init) => Run(g, [init], [], fuel)
  }

  /** `backward_taint_analysis`, the loop bounded by `fuel` iterations. */
  method BackwardTaintAnalysis(g: Graph, trans: nat, fuel: nat) returns (r: Outcome)
    requires WellFormedGraph(g) && trans < |g.insts|
    ensures r == Analysis(g, trans, fuel)
  {
    var t := g.insts[trans];
    var init: PathState;
    if t.isLoad || t.isStore {
      init := PathState(true, trans, [], [], {t.rs1});
    } else if t.isBranch {
      init := PathState(true, trans, [], [], {t.rs1, t.rs2});
    } else {
      return NotATransmitter;
    }
    var states := [init];
    var finals: seq<Finding> := [];
    var remaining := fuel;
    while states != []
      invariant InGraph(g, states)
      invariant Run(g, states, finals, remaining) == Analysis(g, trans, fuel)
      decreases remaining
    {
      if remaining == 0 {
        return OutOfFuel;
      }
      var st := states[|states| - 1];
      states := states[..|states| - 1];
      remaining := remaining - 1;
      ghost var step := Visit(g, st);
      assert Continue(g, step, states, finals, remaining) == Analysis(g, trans, fuel);
      var inst := g.insts[st.current];
      var seen := RecentVisit(g.insts, st.executed, inst.address);
      if seen.Some? && seen.value < |st.executedDeps| && st.executedDeps[seen.value] == st.deps {
        assert step == Skip;
        continue;
      }
      var executed := [st.current] + st.executed;
      var executedDeps := [st.deps] + st.executedDeps;
      var newDeps, leaks := TransferDeps(inst, st.first, st.deps);
      if leaks {
        assert step == Leak(st.current, st.deps, executed);
        return Gadget(st.current, st.deps, executed);
      }
      if inst.opcode == "csrrs" {
        assert step == Report((newDeps, executed));
        finals := finals + [(newDeps, executed)];
        continue;
      }
      if newDeps != {} {
        assert step == Expand(Successors(g, st.current, newDeps, executed, executedDeps));
        InGraphConcat(g, states, step.next);
        states := PushSuccessors(g, st.current, newDeps, executed, executedDeps, states);
      } else {
        assert step == Expand([]);
        assert states + [] == states;
      }
    }
    return Findings(finals);
  }

  /** The `for src in inst.sources` and `if inst.previous` pushes. */
  method PushSuccessors(g: Graph, cur: nat, deps: Deps, executed: seq<nat>, executedDeps: seq<Deps>,
                        states: seq<PathState>) returns (pushed: seq<PathState>)
    requires WellFormedGraph(g) && cur < |g.insts|
    ensures pushed == states + Successors(g, cur, deps, executed, executedDeps)
  {
    pushed := states;
    var srcs := g.sources[cur];
    var k := 0;
    while k < |srcs|
      invariant 0 <= k <= |srcs|
      invariant |pushed| == |states| + k && pushed[..|states|] == states
      invariant forall j :: 0 <= j < k ==> pushed[|states| + j] == PathState(false, srcs[j], executed, executedDeps, deps)
    {
      pushed := pushed + [PathState(false, srcs[k], executed, executedDeps, deps)];
      k := k + 1;
    }
    if g.previous[cur].Some? {
      pushed := pushed + [PathState(false, g.previous[cur].value, executed, executedDeps, deps)];
    }
  }

  /** `to` is reached from `from` in one backward step. */
  predicate Linked(g: Graph, from: nat, to: nat)
    requires WellFormedGraph(g) && from < |g.insts|
  {
    to in g.sources[from] || g.previous[from] == Some(to)
  }

  /** `p` is a backward walk ending at `trans`: each element is reached from
      the one after it. */
  predicate IsPathTo(g: Graph, trans: nat, p: seq<nat>)
    requires WellFormedGraph(g)
  {
    && |p| >= 1 && p[|p| - 1] == trans
    && (forall k :: 0 <= k < |p| ==> p[k] < |g.insts|)
    && (forall k :: 0 <= k < |p| - 1 ==> Linked(g, p[k + 1], p[k]))
  }

  /** The registers any instruction of the graph names as a source. */
  function Operands(g: Graph): Deps {
    (set i | 0 <= i < |g.insts| :: g.insts[i].rs1) + (set i | 0 <= i < |g.insts| :: g.insts[i].rs2)
  }

  predicate StateOk(g: Graph, trans: nat, st: PathState)
    requires WellFormedGraph(g)
  {
    && st.current < |g.insts|
    && IsPathTo(g, trans, [st.current] + st.executed)
    && st.deps != {} && st.deps <= Operands(g)
  }

  predicate FindingOk(g: Graph, trans: nat, f: Finding)
    requires WellFormedGraph(g)
  {
    && IsPathTo(g, trans, f.1)
    && g.insts[f.1[0]].opcode == "csrrs"
    && f.0 <= Operands(g)
  }

  lemma {:induction false} OperandsOf(g: Graph, i: nat)
    requires i < |g.insts|
    ensures g.insts[i].rs1 in Operands(g) && g.insts[i].rs2 in Operands(g)
  {
    assert g.insts[i].rs1 in (set j | 0 <= j < |g.insts| :: g.insts[j].rs1);
    assert g.insts[i].rs2 in (set j | 0 <= j < |g.insts| :: g.insts[j].rs2);
  }

  /** A visit keeps paths well formed and dependency sets within the
      operands; a report starts at a `csrrs`; a gadget is a load or store
      whose destination is tainted. */
  lemma {:induction false} VisitKeeps(g: Graph, trans: nat, st: PathState)
    requires WellFormedGraph(g) && StateOk(g, trans, st)
    ensures Visit(g, st).Report? ==> FindingOk(g, trans, Visit(g, st).finding)
    ensures Visit(g, st).Expand? ==> AllStatesOk(g, trans, Visit(g, st).next)
    ensures Visit(g, st).Leak? ==> GadgetOk(g, trans, Visit(g, st).at, Visit(g, st).tainted, Visit(g, st).path)
  {
    var inst := g.insts[st.current];
    OperandsOf(g, st.current);
    var deps := Transfer(inst, st.first, st.deps);
    assert deps <= Operands(g);
    var path := [st.current] + st.executed;
    if Visit(g, st).Expand? && Visit(g, st).next != [] {
      var next := Successors(g, st.current, deps, path, [st.deps] + st.executedDeps);
      assert Visit(g, st).next == next;
      forall k | 0 <= k < |next|
        ensures StateOk(g, trans, next[k])
      {
        var p := [next[k].current] + path;
        assert Linked(g, path[0], next[k].current);
        assert forall j :: 0 <= j < |p| - 1 ==> p[j + 1] == path[j];
      }
    }
  }

  predicate AllStatesOk(g: Graph, trans: nat, stack: seq<PathState>)
    requires WellFormedGraph(g)
  {
    forall k :: 0 <= k < |stack| ==> StateOk(g, trans, stack[k])
  }

  predicate AllFindingsOk(g: Graph, trans: nat, acc: seq<Finding>)
    requires WellFormedGraph(g)
  {
    forall k :: 0 <= k < |acc| ==> FindingOk(g, trans, acc[k])
  }

  lemma {:induction false} AllStatesOkPopPush(g: Graph, trans: nat, stack: seq<PathState>, next: seq<PathState>)
    requires WellFormedGraph(g) && |stack| > 0 && AllStatesOk(g, trans, stack) && AllStatesOk(g, trans, next)
    ensures StateOk(g, trans, stack[|stack| - 1])
    ensures AllStatesOk(g, trans, stack[..|stack| - 1]) && AllStatesOk(g, trans, stack[..|stack| - 1] + next)
  {
    var rest := stack[..|stack| - 1];
    assert forall k :: 0 <= k < |rest| ==> rest[k] == stack[k];
    assert forall k :: 0 <= k < |rest + next| ==> (rest + next)[k] == if k < |rest| then stack[k] else next[k - |rest|];
  }

  lemma {:induction false} AllStatesOkConcat(g: Graph, trans: nat, rest: seq<PathState>, next: seq<PathState>)
    requires WellFormedGraph(g) && AllStatesOk(g, trans, rest) && AllStatesOk(g, trans, next)
    ensures AllStatesOk(g, trans, rest + next)
  {
    assert forall k :: 0 <= k < |rest + next| ==> (rest + next)[k] == if k < |rest| then rest[k] else next[k - |rest|];
  }

  lemma {:induction false} AllFindingsOkAppend(g: Graph, trans: nat, acc: seq<Finding>, f: Finding)
    requires WellFormedGraph(g) && AllFindingsOk(g, trans, acc) && FindingOk(g, trans, f)
    ensures AllFindingsOk(g, trans, acc + [f])
  {
    assert forall k :: 0 <= k < |acc| ==> (acc + [f])[k] == acc[k];
  }

  /** The gadget property: the path runs backwards from the transmitter to
      `at`, a load or store whose destination register is in the dependency
      set carried along that path. */
  predicate GadgetOk(g: Graph, trans: nat, at: nat, tainted: Deps, path: seq<nat>)
    requires WellFormedGraph(g)
  {
    && IsPathTo(g, trans, path) && path[0] == at
    && (g.insts[at].isLoad || g.insts[at].isStore)
    && g.insts[at].rd in tainted && tainted <= Operands(g)
  }

  /** Every finding of a run from well-formed states is well formed, and a
      gadget it stops at is a load or store with a tainted destination. */
  lemma {:induction false} RunKeeps(g: Graph, trans: nat, stack: seq<PathState>, acc: seq<Finding>, fuel: nat)
    requires WellFormedGraph(g) && InGraph(g, stack)
    requires AllStatesOk(g, trans, stack) && AllFindingsOk(g, trans, acc)
    ensures Run(g, stack, acc, fuel).Findings? ==> AllFindingsOk(g, trans, Run(g, stack, acc, fuel).found)
    ensures Run(g, stack, acc, fuel).Gadget? ==>
              var o := Run(g, stack, acc, fuel);
              GadgetOk(g, trans, o.at, o.tainted, o.path)
    decreases fuel, 0
  {
    if |stack| > 0 && fuel > 0 {
      var st := stack[|stack| - 1];
      AllStatesOkPopPush(g, trans, stack, []);
      InGraphPopPush(g, stack, []);
      VisitKeeps(g, trans, st);
      ContinueKeeps(g, trans, Visit(g, st), stack[..|stack| - 1], acc, fuel - 1);
    }
  }

  lemma {:induction false} ContinueKeeps(g: Graph, trans: nat, step: Step, rest: seq<PathState>,
                                         acc: seq<Finding>, fuel: nat)
    requires WellFormedGraph(g) && InGraph(g, rest) && (step.Expand? ==> InGraph(g, step.next))
    requires AllStatesOk(g, trans, rest) && AllFindingsOk(g, trans, acc)
    requires step.Report? ==> FindingOk(g, trans, step.finding)
    requires step.Expand? ==> AllStatesOk(g, trans, step.next)
    requires step.Leak? ==> GadgetOk(g, trans, step.at, step.tainted, step.path)
    ensures Continue(g, step, rest, acc, fuel).Findings? ==> AllFindingsOk(g, trans, Continue(g, step, rest, acc, fuel).found)
    ensures Continue(g, step, rest, acc, fuel).Gadget? ==>
              var o := Continue(g, step, rest, acc, fuel);
              GadgetOk(g, trans, o.at, o.tainted, o.path)
    decreases fuel, 1
  {
    match step
    case Skip =>
      RunKeeps(g, trans, rest, acc, fuel);
    case Leak(_, _, _) =>
    case Report(f) =>
      AllFindingsOkAppend(g, trans, acc, f);
      RunKeeps(g, trans, rest, acc + [f], fuel);
    case Expand(next) =>
      AllStatesOkConcat(g, trans, rest, next);
      InGraphConcat(g, rest, next);
      RunKeeps(g, trans, rest + next, acc, fuel);
  }

  /** What the analysis reports: every finding's path runs backwards from
      the transmitter to a `csrrs` along `previous` and `sources` links and
      its registers are source operands of the listing; a gadget is a load
      or store reached the same way whose destination register is in the
      dependency set carried to it; an instruction that cannot transmit is
      refused. */
  lemma {:induction false} AnalysisSound(g: Graph, trans: nat, fuel: nat)
    requires WellFormedGraph(g) && trans < |g.insts|
    ensures Analysis(g, trans, fuel) == NotATransmitter <==> !IsTransmitter(g.insts[trans])
    ensures Analysis(g, trans, fuel).Findings? ==> AllFindingsOk(g, trans, Analysis(g, trans, fuel).found)
    ensures Analysis(g, trans, fuel).Gadget? ==>
              var o := Analysis(g, trans, fuel);
              GadgetOk(g, trans, o.at, o.tainted, o.path)
  {
    var seed := Seed(g, trans);
    if seed.Some? {
      OperandsOf(g, trans);
      assert StateOk(g, trans, seed.value);
      assert AllStatesOk(g, trans, [seed.value]);
      RunKeeps(g, trans, [seed.value], [], fuel);
      assert Run(g, [seed.value], [], fuel) != NotATransmitter by {
        RunNeverRefuses(g, [seed.value], [], fuel);
      }
    }
  }

  /** Only the seed refuses an instruction. */
  lemma {:induction false} RunNeverRefuses(g: Graph, stack: seq<PathState>, acc: seq<Finding>, fuel: nat)
    requires WellFormedGraph(g) && InGraph(g, stack)
    ensures Run(g, stack, acc, fuel) != NotATransmitter
    decreases fuel, 0
  {
    if |stack| > 0 && fuel > 0 {
      var st := stack[|stack| - 1];
      InGraphPopPush(g, stack, []);
      ContinueNeverRefuses(g, Visit(g, st), stack[..|stack| - 1], acc, fuel - 1);
    }
  }

  lemma {:induction false} ContinueNeverRefuses(g: Graph, step: Step, rest: seq<PathState>, acc: seq<Finding>, fuel: nat)
    requires WellFormedGraph(g) && InGraph(g, rest) && (step.Expand? ==> InGraph(g, step.next))
    ensures Continue(g, step, rest, acc, fuel) != NotATransmitter
    decreases fuel, 1
  {
    match step
    case Skip => RunNeverRefuses(g, rest, acc, fuel);
    case Leak(_, _, _) =>
    case Report(f) => RunNeverRefuses(g, rest, acc + [f], fuel);
    case Expand(next) =>
      InGraphConcat(g, rest, next);
      RunNeverRefuses(g, rest + next, acc, fuel);
  }

  /** More fuel does not change a run that finished. */
  lemma {:induction false} RunFuelMonotone(g: Graph, stack: seq<PathState>, acc: seq<Finding>, fuel: nat, more: nat)
    requires WellFormedGraph(g) && InGraph(g, stack)
    requires more >= fuel && Run(g, stack, acc, fuel) != OutOfFuel
    ensures Run(g, stack, acc, more) == Run(g, stack, acc, fuel)
    decreases fuel, 0
  {
    if |stack| > 0 {
      var st := stack[|stack| - 1];
      var rest := stack[..|stack| - 1];
      InGraphPopPush(g, stack, []);
      ContinueFuelMonotone(g, Visit(g, st), rest, acc, fuel - 1, more - 1);
    }
  }

  lemma {:induction false} ContinueFuelMonotone(g: Graph, step: Step, rest: seq<PathState>, acc: seq<Finding>, fuel: nat, more: nat)
    requires WellFormedGraph(g) && InGraph(g, rest) && (step.Expand? ==> InGraph(g, step.next))
    requires more >= fuel && Continue(g, step, rest, acc, fuel) != OutOfFuel
    ensures Continue(g, step, rest, acc, more) == Continue(g, step, rest, acc, fuel)
    decreases fuel, 1
  {
    match step
    case Skip => RunFuelMonotone(g, rest, acc, fuel, more);
    case Leak(_, _, _) =>
    case Report(f) => RunFuelMonotone(g, rest, acc + [f], fuel, more);
    case Expand(next) =>
      InGraphConcat(g, rest, next);
      RunFuelMonotone(g, rest + next, acc, fuel, more);
  }

  /** The fuel bound only cuts walks short: an analysis that finishes gives
      the same outcome with any larger bound. */
  lemma {:induction false} AnalysisFuelMonotone(g: Graph, trans: nat, fuel: nat, more: nat)
    requires WellFormedGraph(g) && trans < |g.insts|
    requires more >= fuel && Analysis(g, trans, fuel) != OutOfFuel
    ensures Analysis(g, trans, more) == Analysis(g, trans, fuel)
  {
    if Seed(g, trans).Some? {
      RunFuelMonotone(g, [Seed(g, trans).value], [], fuel, more);
    }
  }

  /** `ld a5, 0(a5)` as a transmitter taints its own destination: a Spectre
      gadget. */
  lemma {:induction false} SelfAddressedLoadIsGadget()
    ensures var ld := Instruction(16, "ld", Some("a5"), Some("a5"), None, Some(0), false, false, true, false);
            Analysis(Graph([ld], [None], [[]]), 0, 1) == Gadget(0, {Some("a5")}, [0])
  {
  }

  /** `csrrs a4, 0x802` followed by `ld a0, 0(a1)`: the walk from the
      load reaches the `csrrs` with `a1` tainted, so the analysis reports
      that `a1` leaks along the path start, load. */
  lemma {:induction false} LoadAddressLeaks()
    ensures Analysis(LeakGraph(), 1, 2) == Findings([({Some("a1")}, [0, 1])])
  {
    var g := LeakGraph();
    var deps: Deps := {Some("a1")};
    var seed := PathState(true, 1, [], [], deps);
    var back := PathState(false, 0, [1], [deps], deps);
    assert Seed(g, 1) == Some(seed);
    LeakSeedStep();
    assert [] + [back] == [back];
    LeakBackStep();
    assert [] + [(deps, [0, 1])] == [(deps, [0, 1])];
    assert Run(g, [back], [], 1) == Findings([(deps, [0, 1])]);
  }

  /** The two-instruction listing of `LoadAddressLeaks`. */
  function LeakGraph(): (g: Graph)
    ensures WellFormedGraph(g)
  {
    var start := Instruction(0, "csrrs", Some("a4"), Some("0x802"), None, None, false, false, false, false);
    var ld := Instruction(4, "ld", Some("a0"), Some("a1"), None, Some(0), false, false, true, false);
    Graph([start, ld], [None, Some(0)], [[], []])
  }

  /** The seed at the load keeps `a1` and moves to the previous instruction. */
  lemma {:induction false} LeakSeedStep()
    ensures Visit(LeakGraph(), PathState(true, 1, [], [], {Some("a1")}))
            == Expand([PathState(false, 0, [1], [{Some("a1")}], {Some("a1")})])
  {
    var g := LeakGraph();
    var deps: Deps := {Some("a1")};
    var ld := g.insts[1];
    assert RecentVisit(g.insts, [], 4) == None;
    assert Accessed(ld, true, deps) == deps;
    assert Some("a0") !in deps;
    assert Transfer(ld, true, deps) == deps;
    assert ld.opcode != "csrrs";
    assert [1] + [] == [1] && [deps] + [] == [deps];
    assert Successors(g, 1, deps, [1], [deps]) == [PathState(false, 0, [1], [deps], deps)];
  }

  /** At the `csrrs` the walk reports `a1` along the path start, load. */
  lemma {:induction false} LeakBackStep()
    ensures Visit(LeakGraph(), PathState(false, 0, [1], [{Some("a1")}], {Some("a1")}))
            == Report(({Some("a1")}, [0, 1]))
  {
    var g := LeakGraph();
    var deps: Deps := {Some("a1")};
    var start := g.insts[0];
    assert RecentVisit(g.insts, [1], 0) == None by {
      assert [1][1..] == [];
    }
    assert Accessed(start, false, deps) == deps;
    assert Some("a4") !in deps;
    assert Transfer(start, false, deps) == deps;
    assert [0] + [1] == [0, 1];
  }
}
