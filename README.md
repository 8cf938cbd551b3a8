# Speculation-control core of AnonSys, modelled in Dafny

AnonSys protects code that handles secrets by turning the processor's
speculation features off around it. This project models three parts of the
system.

- The control layer (`platform_control_spec.h`, duplicated in
  `ttp_enclave_util.h`):
  - the speculation-control register CSR 0x802 and its MSPEC bits;
  - the Zicsr read, write, swap, set and clear accesses (chapter 9 of the
    RISC-V Unprivileged ISA, version 20191213);
  - the six disable/enable toggles for speculation, the predictors and L1.
- The two shared-memory copy routines `memcpy_shm` (`memcpy_shm.c` and
  `memcpy_shm_simple.c`), which bracket their copy loops with predictor
  toggles. The model records, for every byte store, whether the predictors
  were off at that moment.
- The enclave/host boundary ABI of `ttp_enclave_util.h` and `ttp_api.h`:
  - the function codes;
  - the `msg_t` envelope and its LP64 layout;
  - the `key_entry_t` shape;
  - the placement of the two shared queues.
- The two RISC-V listing analysers written in Python:
  - `static_analysis.py`, a linear scan for public and speculatively exposed
    registers;
  - `static_analysis_backward_pass.py`, an instruction graph and a backward
    taint walk from each speculative transmitter to the start of the
    protected snippet.

How the model is laid out:

- Memory is an `array<bv8>` indexed by address, and the control register is
  the `bv64` field of a `PlatformControl.SpecRegister` object.
- A listing is a `seq` of instruction records. The graph's `previous` and
  `sources` links are positions in that sequence.
- Python's `exit(1)` and the exceptions a line can raise become `Result`
  errors. Python's `None` becomes `Option`.
- The taint walk has a fuel bound, because the Python loop is not guaranteed
  to stop. Its loop check compares only against the most recent visit of an
  address. `BackwardTaint.AnalysisFuelMonotone` shows that the bound only
  cuts walks short.

Modules, one per source file plus shared helpers:

- `Wrappers`: `Option` and `Result`.
- `PyText`: the Python string and integer built-ins the parsers use.
- `Objdump`: the pieces both analysers read in the same way: the line
  pattern, register names, `parse_immediate`, memory operands and branch
  targets.
- `Scan`: the boundary scan both analysers share, over their own markers.
- `StaticAnalysis`, `BackwardPass`, `BackwardTaint`.
- `PlatformControl`, `CDecl`, `HostAbi`, `EnclaveAbi`.
- `MemcpyShm`, `MemcpyShmSimple`.

## Model

| member | source | states |
|---|---|---|
| PlatformControl.CsrSetBits | static_analysis_tool/platform_control_spec.h:38-41 | CSRRS sets every bit of the mask and keeps every other bit |
| PlatformControl.CsrClearBits | static_analysis_tool/platform_control_spec.h:43-46 | CSRRC clears every bit of the mask and keeps every other bit |
| PlatformControl.ToggleEffect | static_analysis_tool/platform_control_spec.h:48-78 | after a disable, all of the capability's mask bits are set; after an enable, all of them are clear |
| PlatformControl.MasksDisjoint | static_analysis_tool/platform_control_spec.h:15-18 | the masks 3, 12 and 16 of the three capabilities share no bit |
| PlatformControl.MaskFrame | static_analysis_tool/platform_control_spec.h:38-46 | setting or clearing one mask leaves every bit of a disjoint mask as it was |
| PlatformControl.DisableFrame | static_analysis_tool/platform_control_spec.h:48-78 | disabling one capability leaves the bits of every other capability unchanged |
| PlatformControl.EnableFrame | static_analysis_tool/platform_control_spec.h:48-78 | enabling one capability leaves the bits of every other capability unchanged |
| PlatformControl.DisableIdempotent | static_analysis_tool/platform_control_spec.h:48-78 | disabling twice gives the same register value as disabling once |
| PlatformControl.EnableAfterDisable | static_analysis_tool/platform_control_spec.h:48-78 | enable after disable restores the original value if and only if the capability's bits were clear; it equals a plain enable |
| PlatformControl.SpecRegister.constructor | static_analysis_tool/platform_control_spec.h:10 | the register starts with the given value |
| PlatformControl.SpecRegister.ReadCsr | static_analysis_tool/platform_control_spec.h:24-27 | CSRR returns the register value and writes nothing |
| PlatformControl.SpecRegister.WriteCsr | static_analysis_tool/platform_control_spec.h:29-31 | CSRW replaces the register value |
| PlatformControl.SpecRegister.SwapCsr | static_analysis_tool/platform_control_spec.h:33-36 | CSRRW returns the old value and writes the new one |
| PlatformControl.SpecRegister.SetCsr | static_analysis_tool/platform_control_spec.h:38-41 | CSRRS returns the old value and writes old OR bits |
| PlatformControl.SpecRegister.ClearCsr | static_analysis_tool/platform_control_spec.h:43-46 | CSRRC returns the old value and writes old AND NOT bits |
| PlatformControl.SpecRegister.DisableSpeculation | static_analysis_tool/platform_control_spec.h:48-52 | the read-modify-write leaves the register with MSPEC_NONE set, as the speculation disable |
| PlatformControl.SpecRegister.EnableSpeculation | static_analysis_tool/platform_control_spec.h:54-58 | the read-modify-write leaves the register with MSPEC_NONE cleared, as the speculation enable |
| PlatformControl.SpecRegister.DisablePredictors | static_analysis_tool/platform_control_spec.h:60-62 | one CSRRS of NOTRAINPRED or NOUSEPRED is the predictor disable |
| PlatformControl.SpecRegister.EnablePredictors | static_analysis_tool/platform_control_spec.h:64-66 | one CSRRC of NOTRAINPRED or NOUSEPRED is the predictor enable |
| PlatformControl.SpecRegister.DisableL1 | static_analysis_tool/platform_control_spec.h:68-72 | the read-modify-write sets MSPEC_NOUSEL1, as the L1 disable |
| PlatformControl.SpecRegister.EnableL1 | static_analysis_tool/platform_control_spec.h:74-78 | the read-modify-write clears MSPEC_NOUSEL1, as the L1 enable |
| CDecl.AlignUp | ml_enclave/enclave/ttp_enclave_util.h:15-20 | the result is the first multiple of the alignment at or after the offset |
| CDecl.PlaceSound | ml_enclave/enclave/ttp_enclave_util.h:15-20 | placed fields start at or after the base, sit on their alignment, never overlap, and end by the struct end |
| EnclaveAbi.CodesDistinct | ml_enclave/enclave/ttp_enclave_util.h:9-13 | no two operations share a function code |
| EnclaveAbi.MsgTLayout | ml_enclave/enclave/ttp_enclave_util.h:15-20 | `msg_t` puts f at 0, the five argument words at 8, ret at 48 and done at 52, in 56 bytes |
| EnclaveAbi.HeadersAgree | ml_enclave/ttp_api.h:8-26 | the host header has the same codes in the same order and the same `msg_t` and `key_entry_t` shapes as the enclave header |
| EnclaveAbi.QueuesBackToBack | ml_enclave/enclave/ttp_enclave_util.h:29-31 | the response queue starts one queue size after the request queue and the two share no byte |
| EnclaveAbi.ControlConstantsAgree | ml_enclave/enclave/ttp_enclave_util.h:33-44 | the header's CSR numbers and MSPEC bits equal those of the platform control header |
| EnclaveAbi.DisablePredictors | ml_enclave/enclave/ttp_enclave_util.h:60-62 | the header's copy of the predictor disable leaves the register as the platform layer's disable does |
| EnclaveAbi.EnablePredictors | ml_enclave/enclave/ttp_enclave_util.h:64-66 | the header's copy of the predictor enable leaves the register as the platform layer's enable does |
| MemcpyShm.AlignedPairIff | static_analysis_tool/memcpy_shm.c:8 | the OR-and-mask test holds if and only if both addresses are multiples of the word size |
| MemcpyShm.BulkBytes | static_analysis_tool/memcpy_shm.c:10-14 | the word loop moves a multiple of 8 bytes, at most `len`, and leaves fewer than 8 for the tail |
| MemcpyShm.WordLoopGuardWraps | static_analysis_tool/memcpy_shm.c:10 | with destination 0 and length 3 the bound as written wraps to 2^64 − 4, so the guard admits a word store at 0 that the intended guard refuses, and it holds at every aligned destination below 2^64, so the word loop never exits |
| MemcpyShm.WordLoopGuardAgrees | static_analysis_tool/memcpy_shm.c:10 | the guard as written and the intended guard agree when `dest + len` is at least 7; the intended guard only admits stores that end by `dest + len` |
| MemcpyShm.CopiedExtend | static_analysis_tool/memcpy_shm.c:11-13 | storing the next source bytes extends a copy of n bytes to a copy of n + w bytes |
| MemcpyShm.StoreWord | static_analysis_tool/memcpy_shm.c:11 | a word store copies the eight source bytes to `d` and changes no other byte |
| MemcpyShm.CopyWords | static_analysis_tool/memcpy_shm.c:10-14 | the word loop copies exactly the whole words of `len`, and every store runs with the predictors off |
| MemcpyShm.CopyBytes | static_analysis_tool/memcpy_shm.c:18-19 | the tail loop finishes the copy, and each store is recorded with the predictor state the register holds |
| MemcpyShm.MemcpyShm | static_analysis_tool/memcpy_shm.c:3-22 | for a destination region ending below 2^64: returns `dest`; `dest[0..len)` becomes `src[0..len)` and nothing else changes; aligned: word stores have predictors off, tail stores on, register bits cleared at the end; unaligned: register untouched |
| MemcpyShmSimple.CopyToEnd | static_analysis_tool/memcpy_shm_simple.c:13-14 | the loop on `s < end` writes exactly `dest[0..len)` with `src[0..len)`, every store under the register's predictor state |
| MemcpyShmSimple.EndAfterSource | static_analysis_tool/memcpy_shm_simple.c:7-10 | the 64-bit end pointer `src + len` lies after `src` exactly when `len` is not 0 and `src + len` stays below 2^64 |
| MemcpyShmSimple.MemcpyShmSimple | static_analysis_tool/memcpy_shm_simple.c:3-18 | returns `dest`; when `len` is 0 or `src + len` wraps past 2^64 nothing is stored and the register is untouched; otherwise `dest[0..len)` becomes `src[0..len)`, nothing else changes, the k-th store writes `dest + k` with the predictors off, and the predictors are disabled and then enabled |
| MemcpyShmSimple.VariantsAgree | static_analysis_tool/memcpy_shm_simple.c:13-14 | run on equal memories with the same disjoint arguments whose regions end below 2^64, both variants leave the same bytes |
| PyText.Span | static_analysis_tool/static_analysis_backward_pass.py:42 | the length of the longest prefix whose characters satisfy the predicate |
| PyText.RStrip | static_analysis_tool/static_analysis_backward_pass.py:37 | `rstrip(c)` keeps a prefix, removes only copies of `c`, and leaves no `c` at the end |
| PyText.RTrim | static_analysis_tool/static_analysis_backward_pass.py:37 | removes exactly the trailing run of characters that satisfy the predicate |
| PyText.Strip | static_analysis_tool/static_analysis_backward_pass.py:37 | `strip()` is no longer than its input and has no whitespace at either end |
| PyText.StripExact | static_analysis_tool/static_analysis_backward_pass.py:37 | `strip()` of a string with whitespace only before k and from j on is the slice from k to j |
| PyText.StripIdempotent | static_analysis_tool/static_analysis_backward_pass.py:37 | stripping twice is stripping once |
| PyText.Split | static_analysis_tool/static_analysis_backward_pass.py:49 | `split(',')` gives at least one piece, no piece contains the separator, and joining the pieces with it gives the input back |
| PyText.SplitJoin | static_analysis_tool/static_analysis_backward_pass.py:49 | splitting a joined list of separator-free pieces gives the list back |
| PyText.FormatDigitsValue | static_analysis_tool/static_analysis_backward_pass.py:47 | reading printed hexadecimal or decimal digits back gives the number |
| PyText.PyIntSign | static_analysis_tool/static_analysis_backward_pass.py:56 | `int(s)` and `int(s, 0)` succeed only on text that, stripped, starts with a digit or a sign, and are negative only after a `-` |
| PyText.PyIntDec | static_analysis_tool/static_analysis_backward_pass.py:56 | `int(str(n)) == n` and `int(str(-n)) == -n` |
| PyText.PyIntAutoFormats | static_analysis_tool/static_analysis_backward_pass.py:124-128 | `int(s, 0)` reads back decimal, negative decimal and `0x` hexadecimal renderings |
| PyText.LeadingZero | static_analysis_tool/static_analysis_backward_pass.py:124-128 | `int(s, 0)` refuses a decimal literal with a leading zero, which `int(s)` accepts |
| PyText.FirstHexRun | static_analysis_tool/static_analysis_backward_pass.py:68 | `re.search('([0-9a-fA-F]+)')` finds nothing exactly when no hex digit occurs, and otherwise gives a non-empty run of hex digits |
| Objdump.TakeWhile | static_analysis_tool/static_analysis_backward_pass.py:42 | splits a string into its longest prefix satisfying the predicate and the rest |
| Objdump.MatchLine | static_analysis_tool/static_analysis_backward_pass.py:42-45 | a match has a non-empty hex address and encoding, a non-empty word opcode, and an argument text on one line that does not start with whitespace |
| Objdump.MatchRender | static_analysis_tool/static_analysis_backward_pass.py:42-49 | matching a line rendered from well-formed groups gives the groups back, with any whitespace before the address, any non-empty whitespace runs after the colon and after the encoding, any whitespace before the arguments (an empty run only when they do not start with a word character), and with or without the line end |
| Objdump.RegisterExamples | static_analysis_tool/static_analysis_backward_pass.py:29-39 | `a0`, `zero` and ` t2,` are registers |
| Objdump.NonRegisterExamples | static_analysis_tool/static_analysis_backward_pass.py:29-39 | `x32`, `0x802` and `a8` are not registers |
| Objdump.RegisterPadded | static_analysis_tool/static_analysis_backward_pass.py:35-38 | `is_register` accepts every register name with any whitespace before and after it and any run of commas after it |
| Objdump.RegisterIsNotImmediate | static_analysis_tool/static_analysis_backward_pass.py:105-111 | an operand that is a register never parses as an immediate |
| Objdump.ParseImmediateReads | static_analysis_tool/static_analysis_backward_pass.py:124-128 | `parse_immediate` reads back a signed decimal and a `0x` hexadecimal, and gives `None` for a decimal with a leading zero |
| Objdump.PyIntText | static_analysis_tool/static_analysis_backward_pass.py:56 | `int()` reads back a printed signed offset |
| Objdump.MemOperand | static_analysis_tool/static_analysis_backward_pass.py:55-57 | fewer than two arguments is an `IndexError`; a parsed operand contains `(`, its base has no `(` and no trailing `)`, and an operand that starts with `(` has offset 0 |
| Objdump.MemOperandRender | static_analysis_tool/static_analysis_backward_pass.py:55-57 | the memory operand of `offset(base)` reads back as that offset and that base |
| Objdump.HexTarget | static_analysis_tool/static_analysis_backward_pass.py:68-70 | a branch target is found exactly when the operand holds a hexadecimal digit |
| Objdump.HexTargetRender | static_analysis_tool/static_analysis_backward_pass.py:68-70 | a target printed as `<hex> <symbol>` reads back as its address, whatever the symbol |
| Scan.LastBefore | static_analysis_tool/static_analysis_backward_pass.py:274-280 | the last position before j whose element satisfies the predicate, or none when no such position exists |
| Scan.FirstStopFrom | static_analysis_tool/static_analysis_backward_pass.py:278-282 | the first end marker with a start marker before it, or none when no such marker exists |
| Scan.SnippetBoundaries | static_analysis_tool/static_analysis_backward_pass.py:270-284 | at the first stop, returns that end marker and the last start before it; without a stop, the last start and the last end |
| BackwardPass.ParseInstruction | static_analysis_tool/static_analysis_backward_pass.py:41-122 | non-matching line gives `None`; unknown opcode gives the exit error; a missing argument or bad offset gives the Python exception; otherwise the hex address, opcode, form flags and that form's operand fields |
| BackwardPass.ParseFields | static_analysis_tool/static_analysis_backward_pass.py:47-122 | the same record and errors, given the matched groups |
| BackwardPass.AssignMemoryOperands | static_analysis_tool/static_analysis_backward_pass.py:53-64 | loads set `rd`, stores set `rs2`; both set base `rs1` and the decimal offset (0 when empty) and their own flag, and fail exactly when the memory operand does; neither is a branch |
| BackwardPass.AssignControlOperands | static_analysis_tool/static_analysis_backward_pass.py:65-87 | branches, zero-branches and jumps get their registers and hex target, with the branch or jump flag |
| BackwardPass.AssignDataOperands | static_analysis_tool/static_analysis_backward_pass.py:88-117 | the CSR, immediate, register-register, move and return forms get their operand fields |
| BackwardPass.BranchesTo | static_analysis_tool/static_analysis_backward_pass.py:135-139 | exactly the branches and jumps before n whose immediate is the address, in listing order |
| BackwardPass.AddressIndex | static_analysis_tool/static_analysis_backward_pass.py:131 | every address maps to the last instruction with that address, and only listing addresses are keys |
| BackwardPass.LastIsUnique | static_analysis_tool/static_analysis_backward_pass.py:131 | there is at most one last instruction with a given address |
| BackwardPass.LinkSources | static_analysis_tool/static_analysis_backward_pass.py:135-139 | one iteration appends the current instruction to its target's `sources` and to no other list |
| BackwardPass.BuildInstructionGraph | static_analysis_tool/static_analysis_backward_pass.py:130-140 | `previous` is the list predecessor; the `sources` of the dictionary's instruction for an address are exactly the branches and jumps to it, in order; other instructions have none |
| BackwardPass.FindCodeSnippetBoundaries | static_analysis_tool/static_analysis_backward_pass.py:270-284 | the boundary scan with `csrrs` and `csrrc` on `0x802` as markers |
| BackwardPass.IsCodeSnippetSelfContained | static_analysis_tool/static_analysis_backward_pass.py:286-294 | true exactly when no in-range branch or jump has a nonzero target outside `[start, end]` |
| BackwardPass.FindSpeculativeTransmitters | static_analysis_tool/static_analysis_backward_pass.py:296-304 | exactly the in-range loads, stores and branches, as strictly increasing positions |
| BackwardTaint.Seed | static_analysis_tool/static_analysis_backward_pass.py:156-162 | no initial state exactly for non-transmitters; otherwise the first state starts at the transmitter with an empty path, and its set is `{rs1}` for a load or store and `{rs1, rs2}` for a branch |
| BackwardTaint.RecentVisit | static_analysis_tool/static_analysis_backward_pass.py:175-176 | the most recent position on the path of an instruction with the address, or none |
| BackwardTaint.Successors | static_analysis_tool/static_analysis_backward_pass.py:214-220 | each pushed state is a `sources` member or the `previous` of the current instruction, carrying the new set and the extended path |
| BackwardTaint.TransferEffect | static_analysis_tool/static_analysis_backward_pass.py:188-208 | the set gains only the instruction's own source registers, never an immediate; a tracked destination is replaced by the non-empty sources; an untracked one leaves the set as the access step left it |
| BackwardTaint.TransferDeps | static_analysis_tool/static_analysis_backward_pass.py:184-208 | reports the gadget exactly when a load or store writes a tracked register, and otherwise returns the transferred set |
| BackwardTaint.Visit | static_analysis_tool/static_analysis_backward_pass.py:170-220 | one step of the walk from a popped state; every state it pushes names an instruction of the graph |
| BackwardTaint.BackwardTaintAnalysis | static_analysis_tool/static_analysis_backward_pass.py:153-222 | the worklist loop returns exactly the outcome of the walk `Analysis` |
| BackwardTaint.PushSuccessors | static_analysis_tool/static_analysis_backward_pass.py:214-220 | the stack grows by the `sources` states in order, then the `previous` state |
| BackwardTaint.VisitKeeps | static_analysis_tool/static_analysis_backward_pass.py:175-220 | a visit keeps paths well formed and only pushes non-empty sets; a report starts at a `csrrs`; a gadget is a load or store, reached along a path from the transmitter, whose destination is in the set carried to it |
| BackwardTaint.RunKeeps | static_analysis_tool/static_analysis_backward_pass.py:170-222 | every finding of the walk `Run` from well-formed states is well formed, and a gadget it stops at is a load or store, reached along a path from the transmitter, whose destination is in the set carried to it |
| BackwardTaint.AnalysisSound | static_analysis_tool/static_analysis_backward_pass.py:153-222 | refuses exactly the non-transmitters; each reported path runs from a `csrrs` to the transmitter along `previous` and `sources` links, with registers drawn from the listing's operands; a gadget is a load or store, reached along such a path, whose destination is in the set carried to it |
| BackwardTaint.RunNeverRefuses | static_analysis_tool/static_analysis_backward_pass.py:170-222 | after the seed the walk never ends in the non-transmitter error |
| BackwardTaint.RunFuelMonotone | static_analysis_tool/static_analysis_backward_pass.py:170 | a walk that finishes within some fuel gives the same outcome with more |
| BackwardTaint.AnalysisFuelMonotone | static_analysis_tool/static_analysis_backward_pass.py:170 | the fuel bound only cuts walks short: a finished analysis is the same with any larger bound |
| BackwardTaint.SelfAddressedLoadIsGadget | static_analysis_tool/static_analysis_backward_pass.py:199-203 | `ld a5, 0(a5)` as a transmitter is a Spectre gadget |
| BackwardTaint.LoadAddressLeaks | static_analysis_tool/static_analysis_backward_pass.py:188-212 | a load after the `csrrs` leaks its address register along the path start, load |
| StaticAnalysis.ParseInstruction | static_analysis_tool/static_analysis.py:14-54 | a non-matching line gives `None`; a bad memory operand or a missing argument gives the Python exception; otherwise the record has the hex address and opcode; loads and stores alike set `rd` and base `rs1`; `ori`, `addi` and `add` take a third operand as `imm` when it parses and as `rs2` otherwise; other opcodes set no operand |
| StaticAnalysis.FindCodeSnippetBoundaries | static_analysis_tool/static_analysis.py:85-99 | the boundary scan with `csrw 0x802` and `csrr` with immediate 0x802 as markers |
| StaticAnalysis.IsCodeSnippetSelfContained | static_analysis_tool/static_analysis.py:101-107 | true exactly when no branch or jump anywhere in the listing has a nonzero target outside `[start, end]` |
| StaticAnalysis.FindPublicRegisters | static_analysis_tool/static_analysis.py:109-115 | exactly the base registers of all memory accesses |
| StaticAnalysis.InBranchAfterIff | static_analysis_tool/static_analysis.py:119-130 | the window is open after n instructions exactly when some branch before n has had no end marker after it |
| StaticAnalysis.FindSpeculativelyExposedRegisters | static_analysis_tool/static_analysis.py:117-131 | exactly the base registers of the memory accesses met while the window is open |
| StaticAnalysis.ExposedBeforeStep | static_analysis_tool/static_analysis.py:120-130 | one instruction opens the window, closes it, or adds its base register, as the loop body does |
| StaticAnalysis.ExposedArePublic | static_analysis_tool/static_analysis.py:109-131 | every speculatively exposed register is also a public register |

Some functions only compute and carry no contract of their own; the lemmas
about them hold their properties:

- `BackwardTaint.Transfer` (lines 188-208): `TransferEffect` and `TransferDeps`.
- `BackwardTaint.Run` and `BackwardTaint.Continue`, the walk (lines 170-222):
  `RunKeeps`, `RunNeverRefuses` and `RunFuelMonotone`.
- `BackwardTaint.Analysis` (lines 153-222): `AnalysisSound`,
  `AnalysisFuelMonotone` and the method `BackwardTaintAnalysis`.
- `Objdump.IsRegister` (lines 35-38): `RegisterPadded`, `RegisterExamples`,
  `NonRegisterExamples` and `RegisterIsNotImmediate`.
- `PyText.PyInt` (line 56): `PyIntSign`, `PyIntDec`, `PyIntText` and `LeadingZero`.
- `PyText.PyIntAuto` (lines 124-128): `PyIntSign`, `PyIntAutoFormats` and `LeadingZero`.
- `Objdump.ParseImmediate` (lines 124-128): `ParseImmediateReads` and
  `RegisterIsNotImmediate`.

The line numbers are those of `static_analysis_tool/static_analysis_backward_pass.py`.

## Left out

- `analyze_riscv_assembly` in both analysers is left out: reading the file, printing results and `sys.argv` are I/O. Its calls are the modelled functions.
- Progress output is left out: the `print` calls inside the modelled functions, and the `Parsed instruction` line of `static_analysis.py`.
- `static_analysis_tool/symbolic_execution.py` is left out: it is a fixed query to an external solver.
- The request functions and `init_enclave_queues` of `ttp_api.h` are left out: only their prototypes exist.
- `queue_t`, `msgq.h` and the cryptographic types come from headers that are not part of this model.
  - `key_entry_t` is kept as a list of named opaque fields without a layout.
  - The queue size is a parameter.
- Memory ordering of the shared queues and polling of the `done` flag are left out: they are concurrency.
- Inline `asm` is left out. The CSR accesses are modelled by their Zicsr effect on one register value.
- Overlapping copies are left out: `memcpy_shm` requires `dest[0..len)` and `src[0..len)` to be disjoint, because the C behaviour is undefined there.
- BackwardTaint.BackwardTaintAnalysis: the walk has a fuel bound, and a walk longer than the bound ends in `OutOfFuel`. This matters because the Python loop need not terminate.
- Instruction objects are values in a sequence, and links are positions, so aliasing between records is not modelled. Equality of records in `executed` is address equality, as `__eq__` defines it.
- BackwardPass.FindSpeculativeTransmitters returns positions, not the instruction objects.
- The regular expressions are modelled rather than a regular-expression engine:
  - `\s` and `strip()` use Python's whitespace set, including the Unicode spaces;
  - `\w` is ASCII letters, digits and `_`. An opcode therefore ends at its first non-ASCII character and the rest goes to the argument group: `ldé a0` reads as opcode `ld`, where Python's Unicode `\w` takes `ldé` whole.
- Non-ASCII digits are left out.
- `_` separators inside numbers are left out.
- `int(s, 0)` is modelled for the `0x`, `0o` and `0b` prefixes and for plain decimals.
- MemcpyShm.MemcpyShm: the model runs the word loop with the intended guard. The `Findings` row below covers the guard as written.
- MemcpyShm.MemcpyShm: requires `dest + len` below 2^64 and `src + len` at most 2^64. Where `dest + len` reaches 2^64 the C end pointers wrap and the tail loop does not run; the model does not follow that case.
- MemcpyShmSimple.MemcpyShmSimple: the wrap of the end pointer `src + len` is modelled, as the no-op it causes. A copy whose destination region passes 2^64 is excluded, because C would wrap `d` to address 0.
- MemcpyShmSimple.VariantsAgree: the variants agree only for regions below 2^64. A source ending exactly at 2^64 makes the simple variant's end pointer 0, so it copies nothing while the aligned variant copies.

## Findings

| source | as written | input that shows it | evidently intended | confidence | as-written member | corrected member |
|---|---|---|---|---|---|---|
| static_analysis_tool/memcpy_shm.c:10 | the word-loop guard `d < dest + len - (sizeof(uintptr_t)-1)` subtracts 7 from the end pointer, which wraps when `dest + len < 7` | `dest = 0`, `src = 0` (both aligned), `len = 3`: the bound `0 + 3 - 7` wraps to 2^64 − 4, so the guard admits a word store at 0 that would end 5 bytes past `dest + len`; the guard holds for every aligned `d` below 2^64, `d` steps by 8 and wraps back to 0, so the word loop never exits and the tail loop is never reached | copy a word only while `d + 7 < dest + len` | not executed; only reachable with a null destination, where the first store faults anyway | MemcpyShm.WordLoopGuardWraps | MemcpyShm.WordLoopGuardAgrees |
