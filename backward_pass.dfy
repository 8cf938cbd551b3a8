/** The listing side of static_analysis_backward_pass.py: parsing `objdump`
    lines into instruction records, linking them into a control-flow graph,
    and the three scans over the listing (snippet boundaries,
    self-containment, speculative transmitters). Instructions are values;
    the graph keeps the `previous` and `sources` links as positions in the
    listing. */
module BackwardPass {
  import opened Wrappers
  import opened PyText
  import opened Objdump
  import Scan

  /** One parsed instruction. `sources` and `previous` live in `Graph`. */
  datatype Instruction = Instruction(
    address: nat,
    opcode: string,
    rd: Option<string>,
    rs1: Option<string>,
    rs2: Option<string>,
    imm: Option<int>,
    isBranch: bool,
    isJump: bool,
    isLoad: bool,
    isStore: bool)

  const LOADS: seq<string> := ["ld", "lw", "lh", "lb", "lbu", "lhu", "lwu", "flw"]
  const STORES: seq<string> := ["sd", "sw", "sh", "sb", "fsw"]
  const BRANCHES: seq<string> := ["beq", "bne", "blt", "bge", "bltu", "bgeu"]
  const ZERO_BRANCHES: seq<string> := ["bnez", "beqz"]
  const JUMPS: seq<string> := ["j", "jal", "jalr"]
  const CSR_SET_CLEAR: seq<string> := ["csrrs", "csrrc"]
  const UPPER_IMMEDIATES: seq<string> := ["li", "lui", "auipc"]
  const OP_IMMEDIATES: seq<string> := ["addi", "slti", "sltiu", "xori", "ori", "andi", "slli", "srli", "srai"]
  const OPS: seq<string> := ["add", "addw", "sub", "sll", "slt", "sltu", "xor", "srl", "sra", "or", "and",
                             "fadd", "fsub", "fmul", "fdiv", "flt"]
  const MOVES: seq<string> := ["mv", "fmv", "sext"]

  /** The operand layouts `parse_instruction` distinguishes. */
  datatype Form = Load | Store | Branch | ZeroBranch | Jump | CsrRead | CsrWrite | CsrSetClear
                | UpperImmediate | OpImmediate | Op | Move | Return | Unknown

  /** The branch of `parse_instruction`'s `if`/`elif` chain an opcode takes. */
  function FormOf(op: string): Form {
    if op in LOADS then Load
    else if op in STORES then Store
    else if op in BRANCHES then Branch
    else if op in ZERO_BRANCHES then ZeroBranch
    else if op in JUMPS then Jump
    else if op == "csrr" then CsrRead
    else if op == "csrw" then CsrWrite
    else if op in CSR_SET_CLEAR then CsrSetClear
    else if op in UPPER_IMMEDIATES then UpperImmediate
    else if op in OP_IMMEDIATES then OpImmediate
    else if op in OPS then Op
    else if op in MOVES then Move
    else if op == "ret" then Return
    else Unknown
  }

  /** The number of comma-separated arguments below which a form other
      than a memory access raises `IndexError`. */
  function ArgsNeeded(form: Form, op: string): nat {
    match form
    case Branch => 3
    case CsrSetClear => 3
    case OpImmediate => 3
    case Op => 3
    case Jump => if op == "jalr" then 2 else 1
    case Return => 0
    case _ => 2
  }

  /** `args[k]`, or the empty string when there is no such argument. */
  function ArgText(args: seq<string>, k: nat): string {
    if k < |args| then args[k] else ""
  }

  /** `args[-1]`, or the empty string when there are no arguments. */
  function LastArg(args: seq<string>): string {
    if |args| > 0 then args[|args| - 1] else ""
  }

  /** `args[k].strip()`. */
  function Operand(args: seq<string>, k: nat): string {
    Strip(ArgText(args, k))
  }

  function Blank(address: nat, opcode: string): Instruction {
    Instruction(address, opcode, None, None, None, None, false, false, false, false)
  }

  /** The operand fields each form of `parse_instruction` assigns from the
      comma-separated arguments; all others stay `None`. */
  predicate OperandsAssigned(form: Form, op: string, args: seq<string>, inst: Instruction) {
    match form
    case Load =>
      && inst.rd == Some(Operand(args, 0)) && inst.rs2 == None
      && inst.imm.Some? && inst.rs1.Some? && MemOperand(args) == Ok((inst.imm.value, inst.rs1.value))
    case Store =>
      && inst.rs2 == Some(Operand(args, 0)) && inst.rd == None
      && inst.imm.Some? && inst.rs1.Some? && MemOperand(args) == Ok((inst.imm.value, inst.rs1.value))
    case Branch =>
      && inst.rd == None && inst.rs1 == Some(Operand(args, 0)) && inst.rs2 == Some(Operand(args, 1))
      && inst.imm == HexTarget(ArgText(args, 2))
    case ZeroBranch =>
      && inst.rd == None && inst.rs1 == Some(Operand(args, 0)) && inst.rs2 == None
      && inst.imm == HexTarget(ArgText(args, 1))
    case Jump =>
      && inst.rd == (if op == "j" then None else Some(Operand(args, 0)))
      && inst.rs1 == (if op == "jalr" then Some(Operand(args, 1)) else None)
      && inst.imm == (if op == "jalr" then None else HexTarget(LastArg(args)))
      && inst.rs2 == None
    case CsrRead =>
      && inst.rd == Some(Operand(args, 0)) && inst.rs1 == None && inst.rs2 == None
      && inst.imm == ParseImmediate(Operand(args, 1))
    case CsrWrite =>
      && inst.rd == None && inst.rs1 == Some(Operand(args, 0)) && inst.rs2 == None
      && inst.imm == ParseImmediate(Operand(args, 1))
    case CsrSetClear =>
      && inst.rd == Some(Operand(args, 0)) && inst.rs1 == Some(Operand(args, 1)) && inst.rs2 == None
      && inst.imm == ParseImmediate(Operand(args, 2))
    case UpperImmediate =>
      && inst.rd == Some(Operand(args, 0)) && inst.rs1 == None && inst.rs2 == None
      && inst.imm == ParseImmediate(Operand(args, 1))
    case OpImmediate =>
      && inst.rd == Some(Operand(args, 0)) && inst.rs1 == Some(Operand(args, 1)) && inst.rs2 == None
      && inst.imm == ParseImmediate(Operand(args, 2))
    case Op =>
      && inst.rd == Some(Operand(args, 0)) && inst.rs1 == Some(Operand(args, 1))
      && (IsRegister(Operand(args, 2)) ==> inst.rs2 == Some(Operand(args, 2)) && inst.imm == None)
      && (!IsRegister(Operand(args, 2)) ==> inst.rs2 == None && inst.imm == ParseImmediate(Operand(args, 2)))
    case Move =>
      && inst.rd == Some(Operand(args, 0)) && inst.rs1 == Some(Operand(args, 1)) && inst.rs2 == None
      && inst.imm == Some(0)
    case Return =>
      inst.rd == Some("zero") && inst.rs1 == None && inst.rs2 == None && inst.imm == None
    case Unknown => false
  }

  /** The address, opcode and flags of a parsed record. */
  predicate HasHeader(inst: Instruction, address: nat, op: string) {
    var form := FormOf(op);
    && inst.address == address && inst.opcode == op
    && inst.isLoad == (form == Load) && inst.isStore == (form == Store)
    && inst.isBranch == (form == Branch || form == ZeroBranch) && inst.isJump == (form == Jump)
  }

  /** `parse_instruction`. A line that does not match is `None`; an unknown
      opcode is the `exit(1)` error; a missing argument or a bad memory
      offset is the exception Python raises. Otherwise the record has the
      hexadecimal address, the opcode, the flags of its form and the
      operand fields that form assigns. */
  method ParseInstruction(line: string) returns (r: Result<Option<Instruction>, Error>)
    ensures MatchLine(line).None? <==> r == Ok(None)
    ensures MatchLine(line).Some? ==>
              var f := MatchLine(line).value;
              var args := Split(f.args, ',');
              var form := FormOf(f.opcode);
              && (r == Err(UnknownOpcode(f.opcode)) <==> form == Unknown)
              && (form == Load || form == Store ==> (r.Err? <==> MemOperand(args).Err?))
              && (form == Load || form == Store ==> r.Err? ==> r.error == MemOperand(args).error)
              && (form != Load && form != Store && form != Unknown ==>
                    (r.Err? <==> |args| < ArgsNeeded(form, f.opcode)) && (r.Err? ==> r.error == IndexError))
    ensures MatchLine(line).Some? && r.Ok? && r.value.Some? ==>
              var f := MatchLine(line).value;
              && HasHeader(r.value.value, DigitsValue(f.address, 16), f.opcode)
              && OperandsAssigned(FormOf(f.opcode), f.opcode, Split(f.args, ','), r.value.value)
  {
    var m := MatchLine(line);
    if m.None? {
      return Ok(None);
    }
    var parsed := ParseFields(m.value);
    match parsed {
      case Ok(inst) => r := Ok(Some(inst));
      case Err(e) => r := Err(e);
    }
  }

  /** The dispatch of `parse_instruction` once the line has matched. */
  method ParseFields(f: Fields) returns (r: Result<Instruction, Error>)
    ensures var args := Split(f.args, ',');
            var form := FormOf(f.opcode);
            && (r == Err(UnknownOpcode(f.opcode)) <==> form == Unknown)
            && (form == Load || form == Store ==> (r.Err? <==> MemOperand(args).Err?))
            && (form == Load || form == Store ==> r.Err? ==> r.error == MemOperand(args).error)
            && (form != Load && form != Store && form != Unknown ==>
                  (r.Err? <==> |args| < ArgsNeeded(form, f.opcode)) && (r.Err? ==> r.error == IndexError))
    ensures r.Ok? ==>
              && HasHeader(r.value, DigitsValue(f.address, 16), f.opcode)
              && OperandsAssigned(FormOf(f.opcode), f.opcode, Split(f.args, ','), r.value)
  {
    var op := f.opcode;
    var args := Split(f.args, ',');
    var form := FormOf(op);
    var blank := Blank(DigitsValue(f.address, 16), op);
    if form == Unknown {
      r := Err(UnknownOpcode(op));
    } else if form == Load || form == Store {
      r := AssignMemoryOperands(blank, args);
    } else if |args| < ArgsNeeded(form, op) {
      r := Err(IndexError);
    } else if form == Branch || form == ZeroBranch || form == Jump {
      var inst := AssignControlOperands(blank, args);
      r := Ok(inst);
    } else {
      var inst := AssignDataOperands(blank, args);
      r := Ok(inst);
    }
  }

  /** The operand assignments of loads and stores, which fail where the
      memory operand does. */
  method AssignMemoryOperands(blank: Instruction, args: seq<string>) returns (r: Result<Instruction, Error>)
    requires blank == Blank(blank.address, blank.opcode)
    requires FormOf(blank.opcode) in {Load, Store}
    ensures r.Err? <==> MemOperand(args).Err?
    ensures r.Err? ==> r.error == MemOperand(args).error && r.error != UnknownOpcode(blank.opcode)
    ensures r.Ok? ==> HasHeader(r.value, blank.address, blank.opcode)
    ensures r.Ok? ==> OperandsAssigned(FormOf(blank.opcode), blank.opcode, args, r.value)
  {
    var mem := MemOperand(args);
    if mem.Err? {
      return Err(mem.error);
    }
    var inst := blank;
    var isLoad := FormOf(blank.opcode) == Load;
    if isLoad {
      inst := inst.(rd := Some(Operand(args, 0)));
    } else {
      inst := inst.(rs2 := Some(Operand(args, 0)));
    }
    inst := inst.(imm := Some(mem.value.0), rs1 := Some(mem.value.1));
    inst := inst.(isLoad := isLoad, isStore := !isLoad);
    r := Ok(inst);
  }

  /** The operand assignments of branches and jumps. */
  method AssignControlOperands(blank: Instruction, args: seq<string>) returns (inst: Instruction)
    requires blank == Blank(blank.address, blank.opcode)
    requires FormOf(blank.opcode) in {Branch, ZeroBranch, Jump}
    requires |args| >= ArgsNeeded(FormOf(blank.opcode), blank.opcode)
    ensures HasHeader(inst, blank.address, blank.opcode)
    ensures OperandsAssigned(FormOf(blank.opcode), blank.opcode, args, inst)
  {
    var op := blank.opcode;
    var form := FormOf(op);
    inst := blank;
    if form == Branch {
      inst := inst.(rs1 := Some(Operand(args, 0)), rs2 := Some(Operand(args, 1)));
      inst := inst.(imm := HexTarget(args[2]), isBranch := true);
    } else if form == ZeroBranch {
      inst := inst.(rs1 := Some(Operand(args, 0)));
      inst := inst.(imm := HexTarget(args[1]), isBranch := true);
    } else {
      if op != "j" {
        inst := inst.(rd := Some(Operand(args, 0)));
      }
      if op == "jalr" {
        inst := inst.(rs1 := Some(Operand(args, 1)));
      } else {
        inst := inst.(imm := HexTarget(args[|args| - 1]));
      }
      inst := inst.(isJump := true);
    }
  }

  /** The operand assignments of CSR accesses, immediates, arithmetic,
      moves and `ret`. */
  method AssignDataOperands(blank: Instruction, args: seq<string>) returns (inst: Instruction)
    requires blank == Blank(blank.address, blank.opcode)
    requires FormOf(blank.opcode) in {CsrRead, CsrWrite, CsrSetClear, UpperImmediate, OpImmediate, Op, Move, Return}
    requires |args| >= ArgsNeeded(FormOf(blank.opcode), blank.opcode)
    ensures HasHeader(inst, blank.address, blank.opcode)
    ensures OperandsAssigned(FormOf(blank.opcode), blank.opcode, args, inst)
  {
    var form := FormOf(blank.opcode);
    inst := blank;
    if form == CsrRead {
      inst := inst.(rd := Some(Operand(args, 0)), imm := ParseImmediate(Operand(args, 1)));
    } else if form == CsrWrite {
      inst := inst.(rs1 := Some(Operand(args, 0)), imm := ParseImmediate(Operand(args, 1)));
    } else if form == CsrSetClear {
      inst := inst.(rd := Some(Operand(args, 0)), rs1 := Some(Operand(args, 1)));
      inst := inst.(imm := ParseImmediate(Operand(args, 2)));
    } else if form == UpperImmediate {
      inst := inst.(rd := Some(Operand(args, 0)), imm := ParseImmediate(Operand(args, 1)));
    } else if form == OpImmediate {
      inst := inst.(rd := Some(Operand(args, 0)), rs1 := Some(Operand(args, 1)));
      inst := inst.(imm := ParseImmediate(Operand(args, 2)));
    } else if form == Op {
      inst := inst.(rd := Some(Operand(args, 0)), rs1 := Some(Operand(args, 1)));
      if IsRegister(Operand(args, 2)) {
        inst := inst.(rs2 := Some(Operand(args, 2)));
      } else {
        inst := inst.(imm := ParseImmediate(Operand(args, 2)));
      }
    } else if form == Move {
      inst := inst.(rd := Some(Operand(args, 0)), rs1 := Some(Operand(args, 1)), imm := Some(0));
    } else {
      inst := inst.(rd := Some("zero"));
    }
  }

  /** The control-flow graph: the listing, the list predecessor of every
      instruction, and for every target the branches and jumps to it, as
      positions in the listing. */
  datatype Graph = Graph(insts: seq<Instruction>, previous: seq<Option<nat>>, sources: seq<seq<nat>>)

  predicate WellFormedGraph(g: Graph) {
    && |g.previous| == |g.insts| && |g.sources| == |g.insts|
    && (forall i :: 0 <= i < |g.previous| && g.previous[i].Some? ==> g.previous[i].value < |g.insts|)
    && (forall t, k :: 0 <= t < |g.sources| && 0 <= k < |g.sources[t]| ==> g.sources[t][k] < |g.insts|)
  }

  /** A branch or jump whose immediate is the address `a`. */
  predicate LinksTo(inst: Instruction, a: int) {
    (inst.isBranch || inst.isJump) && inst.imm == Some(a)
  }

  /** The positions before `n` of the branches and jumps to `a`, in listing
      order. */
  function BranchesTo(insts: seq<Instruction>, a: int, n: nat): (r: seq<nat>)
    requires n <= |insts|
    ensures forall j :: j in r <==> 0 <= j < n && LinksTo(insts[j], a)
    ensures forall k, l :: 0 <= k < l < |r| ==> r[k] < r[l]
  {
    if n == 0 then []
    else
      var earlier := BranchesTo(insts, a, n - 1);
      assert forall k :: 0 <= k < |earlier| ==> earlier[k] in earlier;
      earlier + (if LinksTo(insts[n - 1], a) then [n - 1] else [])
  }

  /** No later instruction of the listing has the same address; this is the
      one the address dictionary keeps. */
  predicate IsLastWithAddress(insts: seq<Instruction>, t: nat)
    requires t < |insts|
  {
    forall u :: t < u < |insts| ==> insts[u].address != insts[t].address
  }

  /** `index` maps every address of the listing to the last instruction that
      has it, and nothing else. */
  predicate IsAddressIndex(insts: seq<Instruction>, index: map<int, nat>) {
    && (forall t :: 0 <= t < |insts| ==> insts[t].address in index)
    && (forall a :: a in index ==> index[a] < |insts|)
    && (forall a :: a in index ==> insts[index[a]].address == a && IsLastWithAddress(insts, index[a]))
  }

  /** `{inst.address: inst for inst in instructions}`: every address of the
      listing maps to the last instruction that has it. */
  method AddressIndex(insts: seq<Instruction>) returns (index: map<int, nat>)
    ensures IsAddressIndex(insts, index)
  {
    index := map[];
    var i := 0;
    while i < |insts|
      invariant 0 <= i <= |insts|
      invariant forall a :: a in index ==> index[a] < i && insts[index[a]].address == a
      invariant forall a :: a in index ==> forall u :: index[a] < u < i ==> insts[u].address != a
      invariant forall j :: 0 <= j < i ==> insts[j].address in index
    {
      index := index[insts[i].address := i];
      i := i + 1;
    }
  }

  /** Two positions that are both the last with one address are the same. */
  lemma {:induction false} LastIsUnique(insts: seq<Instruction>, t: nat, k: nat)
    requires t < |insts| && k < |insts| && insts[t].address == insts[k].address
    requires IsLastWithAddress(insts, t) && IsLastWithAddress(insts, k)
    ensures t == k
  {
  }

  /** The `sources` of position `t` once the first `n` instructions have been
      linked. */
  function SourcesSoFar(insts: seq<Instruction>, t: nat, n: nat): seq<nat>
    requires t < |insts| && n <= |insts|
  {
    if IsLastWithAddress(insts, t) then BranchesTo(insts, insts[t].address, n) else []
  }

  /** Linking instruction `i` extends the sources of `t` by `i` exactly when
      `t` is the kept instruction for the address `i` branches to. */
  lemma {:induction false} SourcesSoFarStep(insts: seq<Instruction>, t: nat, i: nat)
    requires t < |insts| && i < |insts|
    ensures SourcesSoFar(insts, t, i + 1) ==
            SourcesSoFar(insts, t, i) + (if IsLastWithAddress(insts, t) && LinksTo(insts[i], insts[t].address) then [i] else [])
  {
  }

  /** One step of the second loop of `build_instruction_graph`: a branch or
      jump whose immediate is a known address is appended to the `sources` of
      the instruction kept for that address. */
  method LinkSources(insts: seq<Instruction>, index: map<int, nat>, sources: seq<seq<nat>>, i: nat)
    returns (linked: seq<seq<nat>>)
    requires IsAddressIndex(insts, index)
    requires i < |insts| && |sources| == |insts|
    requires forall t :: 0 <= t < |insts| ==> sources[t] == SourcesSoFar(insts, t, i)
    ensures |linked| == |insts|
    ensures forall t :: 0 <= t < |insts| ==> linked[t] == SourcesSoFar(insts, t, i + 1)
  {
    var inst := insts[i];
    linked := sources;
    if (inst.isBranch || inst.isJump) && inst.imm.Some? && inst.imm.value in index {
      var v := inst.imm.value;
      assert index[v] < |insts|;
      var t := index[v];
      assert insts[t].address == v && IsLastWithAddress(insts, t);
      linked := sources[t := sources[t] + [i]];
      forall u | 0 <= u < |insts|
        ensures linked[u] == SourcesSoFar(insts, u, i + 1)
      {
        SourcesSoFarStep(insts, u, i);
        if u != t && IsLastWithAddress(insts, u) && LinksTo(inst, insts[u].address) {
          LastIsUnique(insts, t, u);
        }
      }
    } else {
      forall u | 0 <= u < |insts|
        ensures linked[u] == SourcesSoFar(insts, u, i + 1)
      {
        SourcesSoFarStep(insts, u, i);
      }
    }
  }

  /** `build_instruction_graph`. Every instruction but the first has its list
      predecessor as `previous`; the instruction the address dictionary keeps
      for an address has as `sources` exactly the branches and jumps whose
      immediate is that address, in listing order; other instructions have
      none. */
  method BuildInstructionGraph(insts: seq<Instruction>) returns (g: Graph)
    ensures g.insts == insts && WellFormedGraph(g)
    ensures forall i :: 0 <= i < |insts| ==> g.previous[i] == (if i == 0 then None else Some(i - 1))
    ensures forall t :: 0 <= t < |insts| ==>
              g.sources[t] == (if IsLastWithAddress(insts, t) then BranchesTo(insts, insts[t].address, |insts|) else [])
  {
    var index := AddressIndex(insts);
    var previous: seq<Option<nat>> := [];
    var sources: seq<seq<nat>> := seq(|insts|, _ => []);
    var i := 0;
    while i < |insts|
      invariant 0 <= i <= |insts|
      invariant |previous| == i && |sources| == |insts|
      invariant forall j :: 0 <= j < i ==> previous[j] == (if j == 0 then None else Some(j - 1))
      invariant forall t :: 0 <= t < |insts| ==> sources[t] == SourcesSoFar(insts, t, i)
    {
      previous := previous + [if i > 0 then Some(i - 1) else None];
      sources := LinkSources(insts, index, sources, i);
      i := i + 1;
    }
    g := Graph(insts, previous, sources);
    forall t, k | 0 <= t < |sources| && 0 <= k < |sources[t]|
      ensures sources[t][k] < |insts|
    {
      assert sources[t][k] in sources[t];
    }
  }

  /** The start of the protected snippet: `csrrs` on CSR 0x802. */
  predicate IsStartMarker(inst: Instruction) {
    inst.opcode == "csrrs" && inst.rs1 == Some("0x802")
  }

  /** The end of the protected snippet: `csrrc` on CSR 0x802. */
  predicate IsEndMarker(inst: Instruction) {
    inst.opcode == "csrrc" && inst.rs1 == Some("0x802")
  }

  function AddressOf(inst: Instruction): int {
    inst.address
  }

  /** `find_code_snippet_boundaries`. The scan stops at the first end marker
      after a start marker and reports it with the last start marker before
      it; without one it reports the last start and the last end marker of
      the listing, either possibly missing. */
  method FindCodeSnippetBoundaries(insts: seq<Instruction>) returns (start: Option<int>, end: Option<int>)
    ensures Scan.FirstStop(insts, IsStartMarker, IsEndMarker).Some? ==>
              var j := Scan.FirstStop(insts, IsStartMarker, IsEndMarker).value;
              end == Some(insts[j].address as int)
              && start == Scan.AddressAt(insts, AddressOf, Scan.LastBefore(insts, IsStartMarker, j))
    ensures Scan.FirstStop(insts, IsStartMarker, IsEndMarker).None? ==>
              start == Scan.AddressAt(insts, AddressOf, Scan.LastBefore(insts, IsStartMarker, |insts|))
              && end == Scan.AddressAt(insts, AddressOf, Scan.LastBefore(insts, IsEndMarker, |insts|))
  {
    start, end := Scan.SnippetBoundaries(insts, AddressOf, IsStartMarker, IsEndMarker);
  }

  /** A branch or jump inside `[start, end]` whose target is set, not zero,
      and outside `[start, end]`. */
  predicate LeavesSnippet(inst: Instruction, start: int, end: int) {
    && (inst.isBranch || inst.isJump)
    && start <= inst.address <= end
    && TruthyInt(inst.imm) && (inst.imm.value < start || inst.imm.value > end)
  }

  /** `is_code_snippet_self_contained`: true exactly when no instruction
      leaves the snippet. */
  method IsCodeSnippetSelfContained(insts: seq<Instruction>, start: int, end: int) returns (b: bool)
    ensures b <==> forall i :: 0 <= i < |insts| ==> !LeavesSnippet(insts[i], start, end)
  {
    var i := 0;
    while i < |insts|
      invariant 0 <= i <= |insts|
      invariant forall j :: 0 <= j < i ==> !LeavesSnippet(insts[j], start, end)
    {
      var inst := insts[i];
      if inst.isBranch || inst.isJump {
        if inst.address < start || inst.address > end {
          i := i + 1;
          continue;
        }
        if TruthyInt(inst.imm) && (inst.imm.value < start || inst.imm.value > end) {
          assert LeavesSnippet(insts[i], start, end);
          return false;
        }
      }
      i := i + 1;
    }
    return true;
  }

  /** A load, store or branch; a jump is not a transmitter. */
  predicate IsTransmitter(inst: Instruction) {
    inst.isLoad || inst.isStore || inst.isBranch
  }

  predicate InSnippet(inst: Instruction, start: int, end: int) {
    start <= inst.address <= end
  }

  /** `find_speculative_transmitters`: the positions, in listing order, of
      exactly the transmitters inside `[start, end]`. */
  method FindSpeculativeTransmitters(insts: seq<Instruction>, start: int, end: int) returns (ts: seq<nat>)
    ensures forall k :: 0 <= k < |ts| ==>
              ts[k] < |insts| && IsTransmitter(insts[ts[k]]) && InSnippet(insts[ts[k]], start, end)
    ensures forall i :: 0 <= i < |insts| && IsTransmitter(insts[i]) && InSnippet(insts[i], start, end) ==> i in ts
    ensures forall k, l :: 0 <= k < l < |ts| ==> ts[k] < ts[l]
  {
    ts := [];
    var i := 0;
    while i < |insts|
      invariant 0 <= i <= |insts|
      invariant forall k :: 0 <= k < |ts| ==>
                  ts[k] < i && IsTransmitter(insts[ts[k]]) && InSnippet(insts[ts[k]], start, end)
      invariant forall j :: 0 <= j < i && IsTransmitter(insts[j]) && InSnippet(insts[j], start, end) ==> j in ts
      invariant forall k, l :: 0 <= k < l < |ts| ==> ts[k] < ts[l]
    {
      var inst := insts[i];
      if inst.address < start || inst.address > end {
        i := i + 1;
        continue;
      }
      if inst.isLoad || inst.isStore || inst.isBranch {
        ts := ts + [i];
      }
      i := i + 1;
    }
  }
}
