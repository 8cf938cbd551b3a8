/** The forward analyser of static_analysis.py: parse the listing, find the
    protected snippet between `csrw 0x802` and `csrr 0x802`, check that its
    branches stay inside, and collect the address registers of memory
    accesses: all of them, and those that follow a branch while the
    speculation window is open. */
module StaticAnalysis {
  import opened Wrappers
  import opened PyText
  import opened Objdump
  import Scan

  /** One parsed instruction of this analyser (no flags, no graph links). */
  datatype Instruction = Instruction(
    address: nat,
    opcode: string,
    rd: Option<string>,
    rs1: Option<string>,
    rs2: Option<string>,
    imm: Option<int>)

  const MEMORY_ACCESSES: seq<string> := ["ld", "lw", "lh", "lb", "sd", "sw", "sh", "sb"]
  const BRANCHES: seq<string> := ["beq", "bne", "blt", "bge", "bltu", "bgeu"]
  const CONTROL_TRANSFERS: seq<string> := BRANCHES + ["j", "jal", "jalr"]
  const ARITHMETIC: seq<string> := ["ori", "addi", "add"]

  /** The branches of `parse_instruction`'s `if`/`elif` chain; every other
      opcode keeps only its address and opcode. */
  datatype Form = MemoryAccess | Branch | CsrRead | CsrWrite | Arithmetic | Other

  function FormOf(op: string): Form {
    if op in MEMORY_ACCESSES then MemoryAccess
    else if op in BRANCHES then Branch
    else if op == "csrr" then CsrRead
    else if op == "csrw" then CsrWrite
    else if op in ARITHMETIC then Arithmetic
    else Other
  }

  /** `args[k]`, or the empty string when there is no such argument. */
  function ArgText(args: seq<string>, k: nat): string {
    if k < |args| then args[k] else ""
  }

  /** `args[k].strip()`. */
  function Operand(args: seq<string>, k: nat): string {
    Strip(ArgText(args, k))
  }

  /** The number of comma-separated arguments below which a form other than
      a memory access raises `IndexError`. */
  function ArgsNeeded(form: Form): nat {
    match form
    case Branch => 3
    case Other => 0
    case _ => 2
  }

  /** The operand fields each form assigns; all others stay `None`. */
  predicate OperandsAssigned(form: Form, args: seq<string>, inst: Instruction) {
    match form
    case MemoryAccess =>
      && inst.rd == Some(Operand(args, 0)) && inst.rs2 == None
      && inst.imm.Some? && inst.rs1.Some? && MemOperand(args) == Ok((inst.imm.value, inst.rs1.value))
    case Branch =>
      && inst.rd == None && inst.rs1 == Some(Operand(args, 0)) && inst.rs2 == Some(Operand(args, 1))
      && inst.imm == HexTarget(ArgText(args, 2))
    case CsrRead =>
      && inst.rd == Some(Operand(args, 0)) && inst.rs1 == None && inst.rs2 == None
      && inst.imm == ParseImmediate(Operand(args, 1))
    case CsrWrite =>
      && inst.rd == None && inst.rs1 == Some(Operand(args, 0)) && inst.rs2 == None
      && inst.imm == ParseImmediate(Operand(args, 1))
    case Arithmetic =>
      && inst.rd == Some(Operand(args, 0)) && inst.rs1 == Some(Operand(args, 1))
      && (|args| <= 2 ==> inst.imm == None && inst.rs2 == None)
      && (|args| > 2 ==> inst.imm == ParseImmediate(Operand(args, 2)))
      && (|args| > 2 ==> inst.rs2 == if inst.imm.None? then Some(Operand(args, 2)) else None)
    case Other =>
      inst.rd == None && inst.rs1 == None && inst.rs2 == None && inst.imm == None
  }

  /** `parse_instruction`. A line that does not match is `None`; a missing
      argument or a bad memory offset is the exception Python raises; any
      other line gives its hexadecimal address, its opcode and the operand
      fields of its form. */
  method ParseInstruction(line: string) returns (r: Result<Option<Instruction>, Error>)
    ensures MatchLine(line).None? <==> r == Ok(None)
    ensures MatchLine(line).Some? ==>
              var f := MatchLine(line).value;
              var args := Split(f.args, ',');
              var form := FormOf(f.opcode);
              && (form == MemoryAccess ==> (r.Err? <==> MemOperand(args).Err?))
              && (form == MemoryAccess ==> r.Err? ==> r.error == MemOperand(args).error)
              && (form != MemoryAccess ==> (r.Err? <==> |args| < ArgsNeeded(form)) && (r.Err? ==> r.error == IndexError))
    ensures MatchLine(line).Some? && r.Ok? && r.value.Some? ==>
              var f := MatchLine(line).value;
              && r.value.value.address == DigitsValue(f.address, 16) && r.value.value.opcode == f.opcode
              && OperandsAssigned(FormOf(f.opcode), Split(f.args, ','), r.value.value)
  {
    var m := MatchLine(line);
    if m.None? {
      return Ok(None);
    }
    var f := m.value;
    var op := f.opcode;
    var args := Split(f.args, ',');
    var form := FormOf(op);
    var inst := Instruction(DigitsValue(f.address, 16), op, None, None, None, None);
    if form == MemoryAccess {
      var mem := MemOperand(args);
      if mem.Err? {
        return Err(mem.error);
      }
      inst := inst.(rd := Some(Operand(args, 0)));
      inst := inst.(imm := Some(mem.value.0), rs1 := Some(mem.value.1));
    } else if |args| < ArgsNeeded(form) {
      return Err(IndexError);
    } else if form == Branch {
      inst := inst.(rs1 := Some(Operand(args, 0)), rs2 := Some(Operand(args, 1)));
      inst := inst.(imm := HexTarget(args[2]));
    } else if form == CsrRead {
      inst := inst.(rd := Some(Operand(args, 0)), imm := ParseImmediate(Operand(args, 1)));
    } else if form == CsrWrite {
      inst := inst.(rs1 := Some(Operand(args, 0)), imm := ParseImmediate(Operand(args, 1)));
    } else if form == Arithmetic {
      inst := inst.(rd := Some(Operand(args, 0)), rs1 := Some(Operand(args, 1)));
      if |args| > 2 {
        inst := inst.(imm := ParseImmediate(Operand(args, 2)));
        if inst.imm.None? {
          inst := inst.(rs2 := Some(Operand(args, 2)));
        }
      }
    }
    r := Ok(Some(inst));
  }

  /** The start of the protected snippet: `csrw 0x802, …`. */
  predicate IsStartMarker(inst: Instruction) {
    inst.opcode == "csrw" && inst.rs1 == Some("0x802")
  }

  /** The end of the protected snippet, and of a speculation window:
      `csrr …, 0x802`. */
  predicate IsEndMarker(inst: Instruction) {
    inst.opcode == "csrr" && inst.imm == Some(0x802)
  }

  function AddressOf(inst: Instruction): int {
    inst.address
  }

  /** `find_code_snippet_boundaries`, with this analyser's markers. */
  method FindCodeSnippetBoundaries(insts: seq<Instruction>) returns (start: Option<int>, end: Option<int>)
    ensures Scan.FirstStop(insts, IsStartMarker, IsEndMarker).Some? ==>
              var j := Scan.FirstStop(insts, IsStartMarker, IsEndMarker).value;
              end == Some(insts[j].address as int)
              && start == Scan.AddressAt(insts, AddressOf, Scan.LastBefore(insts, IsStartMarker, j))
    ensures Scan.FirstStop(insts, IsStartMarker, IsEndMarker).None? ==>
              start == Scan.AddressAt(insts, AddressOf, Scan.LastBefore(insts, IsStartMarker, |insts|))
              && end == Scan.AddressAt(insts, AddressOf, Scan.LastBefore(insts, IsEndMarker, |insts|))
  {
    start, end := Scan.SnippetBoundaries(insts, AddressOf, IsStartMarker, IsEndMarker);
  }

  /** A branch or jump, anywhere in the listing, whose target is set, not
      zero, and outside `[start, end]`. */
  predicate LeavesSnippet(inst: Instruction, start: int, end: int) {
    inst.opcode in CONTROL_TRANSFERS && TruthyInt(inst.imm) && (inst.imm.value < start || inst.imm.value > end)
  }

  /** `is_code_snippet_self_contained`: true exactly when no instruction
      leaves the snippet. */
  method IsCodeSnippetSelfContained(insts: seq<Instruction>, start: int, end: int) returns (b: bool)
    ensures b <==> forall i :: 0 <= i < |insts| ==> !LeavesSnippet(insts[i], start, end)
  {
    var i := 0;
    while i < |insts|
      invariant 0 <= i <= |insts|
      invariant forall j :: 0 <= j < i ==> !LeavesSnippet(insts[j], start, end)
    {
      var inst := insts[i];
      if inst.opcode in CONTROL_TRANSFERS {
        if TruthyInt(inst.imm) && (inst.imm.value < start || inst.imm.value > end) {
          assert LeavesSnippet(insts[i], start, end);
          return false;
        }
      }
      i := i + 1;
    }
    return true;
  }

  predicate IsMemoryAccess(inst: Instruction) {
    inst.opcode in MEMORY_ACCESSES
  }

  /** The address registers of the memory accesses among the first `n`
      instructions. */
  function AddressRegisters(insts: seq<Instruction>, n: nat): set<Option<string>>
    requires n <= |insts|
  {
    set i | 0 <= i < n && IsMemoryAccess(insts[i]) :: insts[i].rs1
  }

  /** `find_public_registers`: the address register of every memory access. */
  method FindPublicRegisters(insts: seq<Instruction>) returns (regs: set<Option<string>>)
    ensures forall i :: 0 <= i < |insts| && IsMemoryAccess(insts[i]) ==> insts[i].rs1 in regs
    ensures forall r :: r in regs ==> exists i :: 0 <= i < |insts| && IsMemoryAccess(insts[i]) && insts[i].rs1 == r
  {
    regs := {};
    var i := 0;
    while i < |insts|
      invariant 0 <= i <= |insts|
      invariant forall j :: 0 <= j < i && IsMemoryAccess(insts[j]) ==> insts[j].rs1 in regs
      invariant forall r :: r in regs ==> exists j :: 0 <= j < i && IsMemoryAccess(insts[j]) && insts[j].rs1 == r
    {
      if insts[i].opcode in MEMORY_ACCESSES {
        regs := regs + {insts[i].rs1};
      }
      i := i + 1;
    }
  }

  /** The `in_branch` flag once the first `n` instructions have been seen: a
      branch opens the window, an end marker closes an open one. */
  function InBranchAfter(insts: seq<Instruction>, n: nat): bool
    requires n <= |insts|
  {
    if n == 0 then false
    else
      var inst := insts[n - 1];
      if inst.opcode in BRANCHES then true
      else if InBranchAfter(insts, n - 1) && IsEndMarker(inst) then false
      else InBranchAfter(insts, n - 1)
  }

  /** The branch at `j` opened a window that no end marker before `n`
      closed. */
  predicate OpenSince(insts: seq<Instruction>, j: nat, n: nat)
    requires j < n <= |insts|
  {
    insts[j].opcode in BRANCHES && forall k :: j < k < n ==> !IsEndMarker(insts[k])
  }

  /** The window is open after `n` instructions exactly when some branch
      among them has no end marker after it. */
  lemma {:induction false} InBranchAfterIff(insts: seq<Instruction>, n: nat)
    requires n <= |insts|
    ensures InBranchAfter(insts, n) <==> exists j :: 0 <= j < n && OpenSince(insts, j, n)
  {
    if n > 0 {
      InBranchAfterIff(insts, n - 1);
      var inst := insts[n - 1];
      if inst.opcode in BRANCHES {
        assert OpenSince(insts, n - 1, n);
      } else if InBranchAfter(insts, n - 1) && IsEndMarker(inst) {
        forall j | 0 <= j < n
          ensures !OpenSince(insts, j, n)
        {
          if j < n - 1 {
            assert IsEndMarker(insts[n - 1]);
          }
        }
      } else if InBranchAfter(insts, n - 1) {
        var j :| 0 <= j < n - 1 && OpenSince(insts, j, n - 1);
        assert OpenSince(insts, j, n);
      } else {
        forall j | 0 <= j < n
          ensures !OpenSince(insts, j, n)
        {
          if j < n - 1 {
            assert !OpenSince(insts, j, n - 1);
          }
        }
      }
    }
  }

  /** The memory access at `i` comes while the speculation window is open. */
  predicate SpeculativeAccess(insts: seq<Instruction>, i: nat)
    requires i < |insts|
  {
    InBranchAfter(insts, i) && IsMemoryAccess(insts[i])
  }

  /** `find_speculatively_exposed_registers`: the address register of every
      memory access inside an open window. */
  method FindSpeculativelyExposedRegisters(insts: seq<Instruction>) returns (regs: set<Option<string>>)
    ensures forall i :: 0 <= i < |insts| && SpeculativeAccess(insts, i) ==> insts[i].rs1 in regs
    ensures forall r :: r in regs ==> exists i :: 0 <= i < |insts| && SpeculativeAccess(insts, i) && insts[i].rs1 == r
  {
    regs := {};
    var inBranch := false;
    var i := 0;
    while i < |insts|
      invariant 0 <= i <= |insts|
      invariant inBranch == InBranchAfter(insts, i)
      invariant regs == ExposedBefore(insts, i)
    {
      var inst := insts[i];
      ExposedBeforeStep(insts, i);
      if inst.opcode in BRANCHES {
        inBranch := true;
      } else if inBranch {
        if inst.opcode in MEMORY_ACCESSES {
          regs := regs + {inst.rs1};
        } else if inst.opcode == "csrr" && inst.imm == Some(0x802) {
          inBranch := false;
        }
      }
      i := i + 1;
    }
    ExposedBeforeMembers(insts, |insts|);
  }

  /** The address registers of the speculative accesses among the first `n`
      instructions. */
  ghost function ExposedBefore(insts: seq<Instruction>, n: nat): set<Option<string>>
    requires n <= |insts|
  {
    set i | 0 <= i < n && SpeculativeAccess(insts, i) :: insts[i].rs1
  }

  lemma {:induction false} ExposedBeforeStep(insts: seq<Instruction>, n: nat)
    requires n < |insts|
    ensures InBranchAfter(insts, n + 1)
            == (insts[n].opcode in BRANCHES || (InBranchAfter(insts, n) && !IsEndMarker(insts[n])))
    ensures ExposedBefore(insts, n + 1)
            == ExposedBefore(insts, n)
               + (if InBranchAfter(insts, n) && IsMemoryAccess(insts[n]) then {insts[n].rs1} else {})
  {
    assert SpeculativeAccess(insts, n) == (InBranchAfter(insts, n) && IsMemoryAccess(insts[n]));
  }

  lemma {:induction false} ExposedBeforeMembers(insts: seq<Instruction>, n: nat)
    requires n <= |insts|
    ensures forall i :: 0 <= i < n && SpeculativeAccess(insts, i) ==> insts[i].rs1 in ExposedBefore(insts, n)
    ensures forall r :: r in ExposedBefore(insts, n) ==>
              exists i :: 0 <= i < n && SpeculativeAccess(insts, i) && insts[i].rs1 == r
  {
  }

  /** Every speculatively exposed register is also a public one. */
  lemma {:induction false} ExposedArePublic(insts: seq<Instruction>, i: nat)
    requires i < |insts| && SpeculativeAccess(insts, i)
    ensures insts[i].rs1 in AddressRegisters(insts, |insts|)
  {
  }
}
