# Advent of Code 2019 in Rust: the Intcode interpreter and seven puzzle cores, in Dafny

This project models, as pure Dafny functions and small verified methods, the
Intcode virtual machine of `intcode/src/lib.rs` and the puzzle logic of days
1, 2, 3, 4, 6, 8 and 12. Each piece is related to an inverse, an invariant
or an independent reference definition.

- **Intcode** (`intcode.dfy`, `intcode_run.dfy`): the machine has a word memory,
  an instruction pointer and a relative base.
  - The decoder splits an instruction word into a two-digit opcode and up to
    three parameter-mode digits.
  - Operands are resolved in position, immediate or relative mode. Each
    instruction is executed with the source's error for every way it can fail.
  - The driver suspends after each output and is resumed until the halt
    instruction.
  - `intcode_run.dfy` relates these pieces: decode against an encoder, read
    against write, and the suspend/resume driver against a one-shot reference
    semantics that collects every output.
- **Day 1** (`day01.dfy`): the fuel formula with Rust's truncating division,
  the recursive "fuel for the fuel", and both totals.
- **Day 2** (`day02.dfy`): the first, unsigned Intcode interpreter (add,
  multiply, halt). On the words 1, 2 and 99 each pass of its loop is one step
  of the full interpreter, and a successful run is a halting run of the full
  interpreter in the same memory.
- **Day 3** (`day03.dfy`): wires traced cell by cell from the origin, shown
  equal to a reference wire built stride by stride from the parsed tokens; their
  crossings, the crossing closest in Manhattan distance, and the crossing
  reached in the fewest combined steps.
- **Day 4** (`day04.dfy`): the two adjacency rules, and the backtracking
  enumerator that counts, among the buckets it visits below an upper bound,
  those satisfying a rule.
- **Day 6** (`day06.dfy`):
  - the orbit map built from `A)B` pairs;
  - the total of direct and indirect orbits;
  - the path from an object to the root;
  - the first common ancestor of two paths.
- **Day 8** (`day08.dfy`): the image cut into layers, the checksum of the
  layer with the fewest zeros, and the picture made by stacking the layers.
- **Day 12** (`day12.dfy`): the moons' pairwise gravity, motion, energy, and
  the conservation laws the step obeys.
- **Helpers:** `wrappers.dfy` (Option and Result), `rust_int.dfy` (Rust's
  truncating `/` and `%`, `signum`, `abs`) and `text.dfy` (`split`, `trim`,
  integer `parse`).

Integers are unbounded throughout. Rust's `/` and `%` are modelled explicitly
where a dividend can be negative. Fixed widths are not modelled; see "Left out".

## Model

| member | source | states |
|---|---|---|
| RustInt.DivRemSpec | intcode/src/lib.rs:416-420 | Rust's `/` and `%` truncate toward zero: the quotient times the divisor plus the remainder gives the dividend, and the remainder has the dividend's sign |
| RustInt.Signum | day12/src/main.rs:50 | `signum` is -1, 0 or 1, zero exactly for zero, and positive exactly for a positive argument |
| RustInt.Abs | day03/src/main.rs:85-86 | `abs` is the argument or its negation, and zero exactly for zero |
| RustInt.SignumAntisymmetric | day12/src/main.rs:50-52 | the sign of `b - a` is the opposite of the sign of `a - b` |
| RustInt.TruncationDiffersBelowZero | intcode/src/lib.rs:416-420 | on `-7` and `2` Rust's `/` and `%` give -3 and -1, where Dafny's Euclidean ones give -4 and 1 |
| Text.JoinSplit | intcode/src/lib.rs:33-38 | splitting on a separator and joining back with it gives the original string |
| Text.SplitJoin | day03/src/main.rs:22 | splitting a join of separator-free parts gives the parts back |
| Text.Trim | day08/src/main.rs:7 | the trimmed string neither starts nor ends with whitespace |
| Text.TrimSpec | day08/src/main.rs:7 | `trim` returns a slice of the input, and everything cut away before and after it is whitespace; an input without whitespace is unchanged |
| Text.TrimIdempotent | day06/src/main.rs:9-10 | trimming twice is trimming once |
| Text.ParseInt | intcode/src/lib.rs:35-38 | a successful parse lies within the target type's range, and starts with a digit or a sign followed by digits |
| Text.ParseShowInt | intcode/src/lib.rs:35-38 | every in-range integer, written in decimal, parses back to itself |
| Intcode.ModeOf | intcode/src/lib.rs:403-414 | the mode digits 0, 1 and 2 are accepted and read back as themselves; any other digit is the unsupported-mode error |
| Intcode.DecodeModesSpec | intcode/src/lib.rs:416-491 | mode decoding succeeds exactly when each consulted mode digit is 0, 1 or 2, and then returns those digits in order |
| Intcode.Assemble | intcode/src/lib.rs:383-395 | the assembled instruction has the given opcode and operand modes |
| Intcode.DecodeSpec | intcode/src/lib.rs:416-491 | a word decodes exactly when `w % 100` is a known opcode and its consulted mode digits are valid; the decoded instruction has that opcode and those modes; an unknown opcode and a bad mode are the only two errors |
| Intcode.New | intcode/src/lib.rs:17-27 | a new program has empty memory, IP 0 and relative base 0 |
| Intcode.Resize | intcode/src/lib.rs:44-47 | `resize` keeps the prefix that fits and pads with the fill value up to exactly the new length |
| Intcode.ParseWords | intcode/src/lib.rs:33-38 | parsing succeeds exactly when every token parses as an i64, and yields those values in order |
| Intcode.FromStr | intcode/src/lib.rs:29-50 | loading succeeds exactly when every comma-separated token parses; memory is 10000 words, holding the parsed words with zeros after them; IP and relative base are 0 |
| Intcode.Mimick | intcode/src/lib.rs:56-61 | the copy has the other program's memory, IP 0 and relative base 0 |
| Intcode.Read | intcode/src/lib.rs:67-77 | a read succeeds exactly inside memory and returns the stored word; outside memory it is the read-out-of-bounds error |
| Intcode.Write | intcode/src/lib.rs:79-91 | a write succeeds exactly inside memory, changes that cell only, and keeps the length, IP and relative base |
| Intcode.GuardMemoryIp | intcode/src/lib.rs:94-106 | the guard passes exactly when every operand of the instruction lies inside memory |
| Intcode.ReadOperand | intcode/src/lib.rs:109-131 | an immediate operand is its own word; a position or relative operand is the word at its effective address, and is an error exactly when that address is outside memory |
| Intcode.ReadAddrOperand | intcode/src/lib.rs:134-142 | a write target resolves exactly when its mode is not immediate, to its effective address |
| Intcode.PerformOp | intcode/src/lib.rs:144-165 | add and multiply succeed exactly when both sources and the target resolve; the result is written to the target and the IP moves by 4 |
| Intcode.PerformConditional | intcode/src/lib.rs:213-232 | less-than and equals write 1 when the comparison holds and 0 otherwise, succeed exactly when their operands resolve, and move the IP by 4 |
| Intcode.PerformGetInput | intcode/src/lib.rs:167-183 | input succeeds exactly when an input is pending and the target resolves inside memory; it stores the first input and moves the IP by 2; no pending input is the no-input error |
| Intcode.PerformOutput | intcode/src/lib.rs:185-193 | output emits the operand's value and moves the IP by 2 |
| Intcode.PerformJump | intcode/src/lib.rs:195-211 | a jump whose test holds sets the IP to the second operand; otherwise the IP moves by 3 without reading the second operand |
| Intcode.PerformAdjustRelBase | intcode/src/lib.rs:234-242 | the relative base grows by the operand, memory is untouched, and the IP moves by 2 |
| Intcode.UpdateIp | intcode/src/lib.rs:339-344 | an increase adds to the IP, a manual jump sets it, and memory and relative base stay |
| Intcode.SwapRemove | intcode/src/lib.rs:174 | `swap_remove(i)` drops element `i` and moves the last element into its place; every other position is unchanged |
| Intcode.SwapRemoveMultiset | intcode/src/lib.rs:174 | `swap_remove` removes exactly one copy of the element |
| Intcode.Execute | intcode/src/lib.rs:271-329 | only the halt instruction stops the run, and no instruction changes the size of memory |
| Intcode.Step | intcode/src/lib.rs:278-290 | fetching outside memory is the only IP error, and the run stops exactly on a halt instruction |
| Intcode.StepSpec | intcode/src/lib.rs:278-329 | an output instruction emits its operand and moves on by 2 with inputs unchanged; an input instruction consumes its input by `swap_remove(0)`; operands running past memory fail before anything changes |
| Intcode.RunToSuspension | intcode/src/lib.rs:271-329 | the loop keeps memory size, suspends only with an output in hand, and on halt hands back the last output with the IP on the halt instruction |
| Intcode.RerunSuspended | intcode/src/lib.rs:271-277 | an empty memory is the no-more-data error; otherwise it behaves as the loop |
| Intcode.RunSuspended | intcode/src/lib.rs:264-267 | a first run that halts without output reports no output |
| Intcode.Rerun | intcode/src/lib.rs:331-337 | resuming a halted suspension returns it unchanged; resuming a running one keeps its last output if it halts |
| Intcode.Drive | intcode/src/lib.rs:245-261 | the resume loop keeps memory size and ends with the IP on a halt instruction |
| Intcode.Run | intcode/src/lib.rs:245-261 | an empty program is the no-more-data error; a successful run ends on a halt instruction with memory size unchanged |
| IntcodeRun.DecodeOf | intcode/src/lib.rs:416-491 | a word with a known opcode and valid mode digits decodes to exactly that instruction |
| IntcodeRun.DecodeEncode | intcode/src/lib.rs:416-491 | decoding the canonical word of any instruction gives the instruction back |
| IntcodeRun.NegativeWordUnknown | intcode/src/lib.rs:416-418 | a negative word is always an unknown opcode (truncating `%` gives a negative code) |
| IntcodeRun.ReadAfterWrite | intcode/src/lib.rs:67-91 | reading the written cell gives the written word, and every other cell reads as before |
| IntcodeRun.OperandIsReadAtAddress | intcode/src/lib.rs:109-142 | a position or relative operand is a read at the address its write-target reading would give |
| IntcodeRun.IsHaltedIffFetchFails | intcode/src/lib.rs:63-65 | a program is halted exactly when fetching at its IP fails |
| IntcodeRun.SuspensionIsPrefix | intcode/src/lib.rs:271-329 | running to the next suspension stops at the first output of the reference run, and the rest of the reference run continues from there |
| IntcodeRun.RunToSuspensionIsSuspend | intcode/src/lib.rs:271-329 | the fuelled suspension loop is the generic one-pass-per-instruction loop over `step`, which the prefix lemmas reason about |
| IntcodeRun.DriveIsResume | intcode/src/lib.rs:245-261 | on a non-empty memory the resume loop is the generic resume-until-halt loop over `step` |
| IntcodeRun.ResumeFollowsReference | intcode/src/lib.rs:245-261 | resuming until the halt yields the reference run's final memory and last output |
| IntcodeRun.RunAgreesWithExec | intcode/src/lib.rs:245-261 | `run` returns the final program and the last output of the reference run |
| IntcodeRun.RunThenExec | intcode/src/lib.rs:245-329 | conversely, whatever `run` returns on a non-empty memory, short of running out of fuel, a reference run with enough fuel returns too: the same error, or the same final program and last output |
| IntcodeRun.RunErrorAgreesWithExec | intcode/src/lib.rs:245-329 | when the reference run fails other than for fuel, `run` on a non-empty memory fails with the same error |
| IntcodeRun.SuspendThenExec | intcode/src/lib.rs:271-329 | a suspension that did not run out of fuel starts a reference run: the same error, the same halted state, or its output followed by the reference run from the suspended state |
| IntcodeRun.LaunchThenExec | intcode/src/lib.rs:245-261 | for any step function, suspending once and then resuming, unless that runs out of fuel, gives what a reference run with enough fuel gives: the same error, or its final state with its last output |
| IntcodeRun.ResumeThenExec | intcode/src/lib.rs:245-261 | a resumption that did not run out of fuel ends in a reference run's error, or in its final state with its last output |
| IntcodeRun.SuspensionErrorIsPrefix | intcode/src/lib.rs:271-329 | a failing reference run fails the same way before its first output, or suspends at that output and fails later from there |
| IntcodeRun.ResumeErrorFollowsReference | intcode/src/lib.rs:245-261 | resuming a program whose reference run fails ends in that failure |
| IntcodeRun.RerunAfterHalt | intcode/src/lib.rs:264-329 | running a halted program again halts at once without output |
| IntcodeRun.MimickForgetsHistory | intcode/src/lib.rs:56-61 | after `mimick` the run depends only on the copied memory |
| IntcodeRun.StepArith | intcode/src/lib.rs:291-293 | a resolvable add or multiply writes its result and moves the IP by 4, inputs untouched |
| IntcodeRun.StepCompare | intcode/src/lib.rs:302-309 | a resolvable comparison writes 1 or 0 and moves the IP by 4 |
| IntcodeRun.StepJumpNotTaken | intcode/src/lib.rs:299-301 | a jump whose test fails moves the IP by 3 |
| IntcodeRun.StepJumpTaken | intcode/src/lib.rs:299-301 | a jump whose test holds sets the IP to its target |
| IntcodeRun.StepGetInput | intcode/src/lib.rs:294-296 | an input instruction stores the first input, moves the IP by 2 and leaves the remaining inputs as `swap_remove(0)` does |
| IntcodeRun.StepNoInput | intcode/src/lib.rs:167-172 | an input instruction with no pending input fails |
| IntcodeRun.StepAdjustRelBase | intcode/src/lib.rs:310 | an adjust instruction adds its operand to the relative base |
| IntcodeRun.ExampleAddMultiply | intcode/src/lib.rs:144-165 | on `1,9,10,3,2,3,11,0,99,30,40,50` the add writes 70 at 3 and the multiply then writes 3500 at 0 |
| IntcodeRun.ExampleOpcodes | intcode/src/lib.rs:416-491 | the words 1, 2, 99, 109, 204 and 1002 decode to the opcodes and modes their digits spell |
| IntcodeRun.ExampleImmediateMode | intcode/src/lib.rs:108-165 | on `1002,4,3,4,33` the immediate operand is its own value, so the multiply writes 99 at address 4 |
| IntcodeRun.SwapRemoveReordersInputs | intcode/src/lib.rs:292-296 | an input instruction consumes the first input and moves the last one to the front: `10,20,30` leaves `30,20` |
| IntcodeRun.ExampleRelativeBase | intcode/src/lib.rs:185-242 | `109,3,204,1,99` moves the relative base to 3 and outputs the word at address 4, the closing 99 |
| Day01.ModuleFuel | day01/src/main.rs:4-6 | the fuel is a third of the mass rounded toward zero, less two |
| Day01.ModuleFuelMonotone | day01/src/main.rs:4-6 | a heavier module never needs less fuel |
| Day01.DependentFuel | day01/src/main.rs:17-25 | the extra fuel is zero when the formula gives nothing, at least the formula's value otherwise, and at most half the fuel it carries |
| Day01.DependentFuelMonotone | day01/src/main.rs:17-25 | more fuel never needs less extra fuel |
| Day01.TotalFuel | day01/src/main.rs:9-14 | no modules need no fuel, and one module needs its module fuel (TotalsAdditive extends this to every list) |
| Day01.RecursiveTotalFuel | day01/src/main.rs:28-34 | no modules need no fuel, and one module needs its fuel plus the dependent fuel of that fuel |
| Day01.TotalsAdditive | day01/src/main.rs:9-14 | both totals add up over a split of the module list |
| Day01.RecursiveTotalExceedsTotal | day01/src/main.rs:28-34 | the recursive total is the plain total plus each module's extra fuel, so it is never smaller |
| Day01.ExampleModuleFuel | day01/src/main.rs:4-6 | masses 12, 14, 1969 and 100756 need 2, 2, 654 and 33583 |
| Day01.ExampleModuleTotal | day01/src/main.rs:28-34 | a module of mass 1969 needs 966 in all |
| Day01.ExampleSmallModuleTotal | day01/src/main.rs:17-34 | a module of mass 14 needs 2 in all, its fuel needing none |
| Day01.ExampleNegativeMass | day01/src/main.rs:4-6 | mass -4 needs fuel -3 under truncating division, not the -4 that flooring would give |
| Day02.PerformOp | day02/src/main.rs:11-34 | the operation fails on missing data, then on each out-of-range read in order; when it succeeds it writes `f(op1, op2)` at the third operand and changes nothing else |
| Day02.Run | day02/src/main.rs:41-56 | a successful run of the loop keeps the program's length (the partner `RunEndsOnHalt` says where it stopped) |
| Day02.RunEndsOnHalt | day02/src/main.rs:36-57 | a successful run stopped on a 99 at an instruction boundary reached from the start |
| Day02.RunProgram | day02/src/main.rs:36-40 | an empty program is an error, and a successful run keeps the program's length |
| Day02.RunAtOpcode | day02/src/main.rs:43-51 | a 99 stops the run with memory as it is, and any opcode other than 1, 2 and 99 is an error |
| Day02.PerformOpIsIntcodeOp | day02/src/main.rs:11-34 | an add or multiply here succeeds exactly when the full interpreter's does in position mode, and writes the same memory |
| Day02.ArithStepIsIntcodeStep | day02/src/main.rs:11-34 | words 1 and 2 succeed in this interpreter exactly when the full interpreter's step succeeds, and then that step continues four words on in the memory this interpreter writes, with no output |
| Day02.RunStepIsIntcodeStep | day02/src/main.rs:41-56 | on 1, 2 and 99 one pass of the loop is one step of the full interpreter: 99 stops, and an add or multiply succeeds together with the full step and continues four words on in the same memory |
| Day02.RunIsIntcodeExec | day02/src/main.rs:41-56 | a successful run is a halting run of the full interpreter from the same IP, with no output and the same final memory |
| Day02.ExampleRun | day02/src/main.rs:36-57 | `1,9,10,3,2,3,11,0,99,30,40,50` ends with 3500 at address 0 |
| Day02.ExampleSelfModifying | day02/src/main.rs:36-57 | `1,1,1,4,99,5,6,0,99` rewrites its own code and ends with 30 at address 0 |
| Day03.SegmentShape | day03/src/main.rs:31-54 | a move of `n` adds `max(n, 0)` cells, the `i`-th of them `i + 1` cells from the start along the letter's axis, each adjacent to the one before |
| Day03.AllWellFormedEach | day03/src/main.rs:22-56 | the tokens are all well formed exactly when each one is non-empty, has a value that parses as `i32` and starts with one of the four letters |
| Day03.StridesAt | day03/src/main.rs:27-31 | stride `i` is token `i`'s first letter and its parsed value |
| Day03.TraceIsCells | day03/src/main.rs:22-58 | over well-formed tokens the loop appends exactly the reference cells: each token's segment, starting from the last cell so far |
| Day03.CellsLengthEnd | day03/src/main.rs:31-54 | the reference cells number the sum of `max(n, 0)` over the strides, and the last of them is where the strides lead |
| Day03.CellsSegment | day03/src/main.rs:31-54 | stride `i`'s segment sits right after the cells of the strides before it and starts where they lead |
| Day03.ToWireIsCells | day03/src/main.rs:19-61 | a successful `to_wire` is the origin followed by the reference cells of the line's strides |
| Day03.WireOfStrides | day03/src/main.rs:19-61 | the reference wire has `1 + sum of max(n, 0)` cells, ends where the strides lead, and holds each stride's segment right after the earlier strides' cells |
| Day03.ToWireSpec | day03/src/main.rs:19-61 | a successful wire starts at the origin, has `1 + sum of max(n_i, 0)` cells over its tokens, ends where the tokens lead, and holds token `i`'s segment of letter `d_i` and value `n_i` right after the cells of the tokens before it |
| Day03.ToWire | day03/src/main.rs:19-61 | a line traces exactly when every token is well formed; the wire starts at the origin and is connected |
| Day03.TraceFirstError | day03/src/main.rs:23-56 | the first bad token decides the error: empty, unparsable value, or unknown direction, checked in that order |
| Day03.DistIsMetric | day03/src/main.rs:84-88 | the distance is symmetric, zero exactly between equal points, and obeys the triangle inequality |
| Day03.AdjacentAtDistanceOne | day03/src/main.rs:84-88 | two cells are adjacent exactly when they are at distance one |
| Day03.Overlaps | day03/src/main.rs:64-73 | the overlap map holds exactly the cells of the wires, each with the wires it lies on |
| Day03.MarkCell | day03/src/main.rs:67-71 | recording one more cell of wire `i` (a fresh entry starts as the presence pair with only flag `i` set) keeps every flag true exactly for the wires the cell has been seen on |
| Day03.Intersections | day03/src/main.rs:90-109 | the result is exactly the cells other than the origin that lie on both wires |
| Day03.ClosestIntersection | day03/src/main.rs:63-82 | there is no answer exactly when there is no crossing; otherwise the answer is a crossing no farther from the origin than any other |
| Day03.Steps | day03/src/main.rs:111-123 | the count is the index of the first cell equal to the point, or the wire's length when the point is not on it |
| Day03.BestSteps | day03/src/main.rs:125-135 | the best is at most the combined steps of every crossing, and is either `usize::MAX` or attained by some crossing |
| Day03.StepsAtLeastDistance | day03/src/main.rs:111-123 | on a connected wire, reaching a point takes at least its distance from the start |
| Day03.ExampleWire | day03/src/main.rs:19-61 | `R2,U1` traces the origin, (1,0), (2,0) and (2,1) |
| Day03.ExampleWrongDirection | day03/src/main.rs:56 | `X3` is the wrong-direction error |
| Day03.ExampleEmptyToken | day03/src/main.rs:23-25 | an empty token is the malformed-direction error |
| Day04.AdjacencyRule1 | day04/src/main.rs:7-15 | the part-one rule holds exactly when two neighbouring digits are equal |
| Day04.AdjacencyRule2 | day04/src/main.rs:18-32 | the part-two rule holds exactly when some run of equal neighbours has length exactly two |
| Day04.Part2ImpliesPart1 | day04/src/main.rs:7-32 | a bucket passing the part-two rule passes the part-one rule |
| Day04.LessIffFirstDifference | day04/src/main.rs:39 | array comparison is lexicographic: smaller exactly at the first differing digit |
| Day04.BacktrackIndex | day04/src/main.rs:50-52 | backtracking stops at the last digit that is not 9, or at the first digit |
| Day04.Next | day04/src/main.rs:49-61 | the next bucket keeps the digits before the backtrack point and sets it and every later digit to its value plus one |
| Day04.NextIsGreater | day04/src/main.rs:49-61 | the next bucket is strictly greater |
| Day04.NextStaysDigits | day04/src/main.rs:49-61 | the next bucket is again made of digits, except after 999999, where it is all tens |
| Day04.CountFrom | day04/src/main.rs:34-64 | nothing is counted from a bucket at or above the bound, and a bucket below it that passes the rule counts at least once |
| Day04.Backtrack | day04/src/main.rs:50-52 | the backward scan past trailing nines stops at the backtrack point of the reference definition |
| Day04.Rebuild | day04/src/main.rs:55-59 | filling from the backtrack point with its digit plus one gives the next bucket of the reference definition |
| Day04.ApplyRule | day04/src/main.rs:45-47 | the scan that applies the chosen rule agrees with its pair-based characterisation |
| Day04.CountFromStep | day04/src/main.rs:38-62 | one loop pass counts the bucket when it passes the rule and moves on to the next bucket |
| Day04.Count | day04/src/main.rs:34-64 | the loop counts every bucket the enumerator visits below the bound (following `Next` from the start) that passes the rule, and nothing from a start at or above the bound |
| Day04.ExampleCount | day04/src/main.rs:34-64 | from 111111 below 111113, part one counts 2 and part two counts none |
| Day06.PairFromIter | day06/src/main.rs:5-12 | a pair is produced exactly when there are at least two items |
| Day06.PairFromIterSpec | day06/src/main.rs:5-12 | only the first two items matter, each half is a trimmed slice of its item |
| Day06.BuildGraph | day06/src/main.rs:24-29 | COM is in the graph, mapped to the empty name |
| Day06.ParentMapKeys | day06/src/main.rs:24-29 | the map's keys are exactly the children of the pairs |
| Day06.ParentMapLastWins | day06/src/main.rs:24-29 | a child maps to the parent of its last pair |
| Day06.BuildGraphSpec | day06/src/main.rs:24-29 | the graph's keys are the children and COM; a child other than COM maps to the parent of its last pair, and COM maps to the empty string |
| Day06.Climb | day06/src/main.rs:36-49 | COM and an object with no parent end the climb with no further orbits (ClimbSucceeds says when any other climb succeeds) |
| Day06.ClimbSucceeds | day06/src/main.rs:36-49 | along any walk to COM the climb succeeds and counts one orbit per link |
| Day06.DepthSucceeds | day06/src/main.rs:31-55 | an object whose parent walks to COM has a depth: the number of objects on that walk, one fewer for COM itself |
| Day06.Depth | day06/src/main.rs:31-55 | an object other than COM has at least one orbit |
| Day06.SumDepthRemove | day06/src/main.rs:31-55 | the sum over the keys is one key's depth plus the sum over the others, in any order |
| Day06.CountOrbits | day06/src/main.rs:31-55 | the loop over the keys returns the total of all depths |
| Day06.SumDepthSome | day06/src/main.rs:31-55 | the total over the keys is defined exactly when every key's depth is, so a count comes back exactly when no climb goes round a cycle |
| Day06.SumDepthSeqIsTotal | day06/src/main.rs:31-55 | summing over any listing of the keys without repeats gives the total |
| Day06.Walk | day06/src/main.rs:57-73 | the path starts at the object, follows parents, stops at the destination or an object with no parent, and never repeats an object |
| Day06.WalkSucceeds | day06/src/main.rs:57-73 | conversely, when such a path exists the walk returns it, so `None` only when the parents go round a cycle |
| Day06.WalkExtend | day06/src/main.rs:57-73 | putting in front an object whose parent starts a path, other than the destination and not already on it, gives a path again |
| Day06.PathTo | day06/src/main.rs:57-73 | the result is a path from the object, and it is the result whenever such a path exists |
| Day06.ClimbIsWalkLength | day06/src/main.rs:31-73 | the number of orbits is the length of the path to COM, less one |
| Day06.DepthIsPathLength | day06/src/main.rs:31-73 | an object's depth is defined exactly when its parent's path to COM is, and is then the number of objects on that path, one fewer when the object is COM |
| Day06.CommonSuffix | day06/src/main.rs:75-92 | the two paths agree on their last `n` objects and differ just before |
| Day06.FindFirstIntersection | day06/src/main.rs:75-92 | an answer is an object of the first path, and is on the second path too unless it is the first path's first object |
| Day06.FindFirstIntersectionSpec | day06/src/main.rs:75-92 | with `n` the length of the paths' common tail: no answer when either path is empty or lies wholly inside that tail; otherwise the first object when `n` is 0, and the object `n` places from the end of the first path when it is not |
| Day06.ReducePath | day06/src/main.rs:94-104 | the reduced path exists exactly when the destination is on the path, and is the longest prefix ending at it: the destination does not occur after that prefix |
| Day06.ExampleWalks | day06/src/main.rs:140-160 | in the test map the parents of B, C, D, E, J, K and G walk to COM in 2 to 7 objects |
| Day06.ExampleDepths | day06/src/main.rs:140-160 | COM and B to L in the test map have depths 0, 1, 2, 3, 4, 5, 2, 3, 4, 5, 6 and 7, the orbits the test adds up to 42 |
| Day06.ExampleTotal | day06/src/main.rs:155-160 | the test map has 42 direct and indirect orbits |
| Day06.ExampleBuildGraph | day06/src/main.rs:140-160 | the test pairs build the test graph |
| Day08.Chunks | day08/src/main.rs:9 | chunks are non-empty, and all but the last are exactly `n` long |
| Day08.FlattenChunks | day08/src/main.rs:9 | laying the chunks end to end gives back the input |
| Day08.ChunksCount | day08/src/main.rs:9 | an input of `k` whole layers gives `k` chunks |
| Day08.ReadImage | day08/src/main.rs:5-12 | the layers laid end to end are the trimmed input, and all but the last are full |
| Day08.FewestZeros | day08/src/main.rs:15-26 | the fold picks the first layer with the fewest zeros, starting from `usize::MAX` |
| Day08.OnesTwosCounts | day08/src/main.rs:28-36 | the second fold counts exactly the ones and the twos |
| Day08.Part1 | day08/src/main.rs:14-39 | an empty image has no checksum |
| Day08.Part1Spec | day08/src/main.rs:14-39 | the checksum is ones times twos on the first layer with the fewest zeros |
| Day08.PaintPixel | day08/src/main.rs:50-54 | a pixel other than 0 and 1 leaves the frame buffer as it was |
| Day08.PixelSpec | day08/src/main.rs:41-60 | a picture pixel comes from the first layer that is black or white there, and is a space when every layer is transparent |
| Day08.PaintLayer | day08/src/main.rs:45-56 | painting one layer applies the pixel rule at every index `x + y * width` |
| Day08.Part2 | day08/src/main.rs:41-60 | painting the layers from last to first gives the stacked picture |
| Day08.ExamplePart2 | day08/src/main.rs:41-60 | the layers `0222`, `1122`, `2212` and `0000` give black, white, white, black |
| Day12.Pot | day12/src/main.rs:13-15 | the potential energy is zero exactly at the origin |
| Day12.Kin | day12/src/main.rs:17-19 | the kinetic energy is zero exactly at rest |
| Day12.TotZero | day12/src/main.rs:21-23 | a moon's energy is zero exactly when it is at the origin or at rest |
| Day12.SystemEnergy | day12/src/main.rs:65-67 | no moons have no energy, and one moon has its own total energy |
| Day12.SystemEnergySpec | day12/src/main.rs:65-67 | the system has no energy exactly when no moon has any, and at least as much as each moon |
| Day12.PullAntisymmetric | day12/src/main.rs:50-52 | the pull of one moon on another is the opposite of the pull back |
| Day12.TotalZero | day12/src/main.rs:44-55 | all the pulls of a step add up to zero |
| Day12.GainBound | day12/src/main.rs:44-55 | in one step a velocity changes by at most one per other moon on each axis |
| Day12.Gravity | day12/src/main.rs:44-55 | gravity keeps the number of moons and their positions |
| Day12.PairGravity | day12/src/main.rs:48-53 | one pair moves each of its two moons one unit toward the other on every axis, and touches nothing else |
| Day12.PairStep | day12/src/main.rs:44-55 | one pass of the inner loop adds exactly the pull of the pair `(a, b)` to both its moons, so the velocities hold every pull taken so far |
| Day12.UpdateVel | day12/src/main.rs:44-55 | the pair loops give every moon the pull of every other moon |
| Day12.GravityConservesMomentum | day12/src/main.rs:44-55 | gravity keeps the sum of the velocities on each axis |
| Day12.UpdatePos | day12/src/main.rs:57-63 | motion keeps the velocities |
| Day12.UpdatePosMovesCentre | day12/src/main.rs:57-63 | motion moves the sum of the positions by the sum of the velocities |
| Day12.Simulate | day12/src/main.rs:69-76 | the energy after the loop is the energy of the system after that many steps |
| Day12.IterateConserves | day12/src/main.rs:69-76 | over `n` steps the velocity sum is kept and the position sum moves by `n` times it |
| Day12.Step4IsStep | day12/src/main.rs:44-63 | for four moons, one step is the written-out per-moon formula |
| Day12.ExampleSimulate | day12/src/main.rs:188-198 | the four test moons have energy 179 after ten steps |

## Left out

- Integer widths: `i64` words, `i32` masses and coordinates, `u32` day-2
  words, `u8` digits, `u64` energies and `usize` counters are unbounded
  `int`/`nat`. Wrap-around and overflow panics are not modelled.
- Intcode.Run, Intcode.RunToSuspension, Intcode.Drive: the source loops until
  halt. The model takes a `fuel` bound and reports `OutOfFuel` when it runs
  out. A run that never halts is therefore not characterised.
- Fetching at an IP outside memory panics in the source. The model reports it
  as the `IpOutOfBounds` error.
- Intcode.Run, Intcode.RerunSuspended, Intcode.Rerun: the source mutates the
  program in place and returns through `?` in the middle of the loop, so
  after an error the caller's program keeps the writes, IP and relative base
  of every instruction before the failing one. The model returns only the
  error tag and no program.
- Error messages are modelled as error tags. Their formatted text is left out.
- The examples run instructions one at a time rather than whole programs; a
  whole-program run of the interpreter is not reproduced.
- Reading input files, `main` functions and printing are left out:
  - `INPUT` constants and the `lines()` loops of day 1;
  - `get_program` of day 2;
  - `get_wires` of day 3, which also drops the last character of each line;
  - `get_orbit_pairs` of day 6;
  - `get_moons` of day 12;
  - the answer arithmetic and printing in each `main`.
- Day06.PairFromIter: `get_orbit_pairs` trims with a predicate
  `c == ' ' && c == '\n'` that no character satisfies. The pairs are therefore
  taken as given, already split.
- Day 3 tokens are Rust `&str`, sliced by byte and matched on their first byte.
  Here a token is a sequence of characters. A token whose first character is
  not ASCII, such as `é5`, makes `dir[1..]` panic in the source, while the
  model reports it as `BadValue` or `WrongDirection`.
- Day 3 with a third wire: `presence[i]` panics in the source. The model
  requires at most two wires.
- Day 3 ordering: the order of the crossings comes from `HashMap` iteration
  order and `sort_by`. Day03.ClosestIntersection returns some nearest crossing
  rather than a particular one among equally near crossings.
- The day-3 tests on the long example wires are not reproduced.
- Day 4 ordering: `count` tests `i == 5`, which always holds. The model also
  checks the start bucket as given, as the source does, even when its digits
  decrease.
- Day04.ApplyRule: the choice between the two `cfg` variants of
  `adjacency_rule` is a parameter.
- Day 6 cycles: a cycle in the orbit map makes the source loop forever.
  Day06.Climb returns `None` instead, and Day06.Walk does the same.
- Day06.FindFirstIntersection and Day06.ReducePath: the source's `unwrap` on
  an empty path or an exhausted iterator panics. The model returns `None`
  there.
- The part-2 arithmetic of day 6's `main` is left out.
- Day 8 characters: characters stand for bytes, which is exact for the
  ASCII digits of the format. Non-ASCII input is not modelled.
- Day08.Part1: `image[layer]` panics in the source on an empty image. The
  model returns `None`.
- Day08.ReadImage: `chunks(0)` panics in the source when `width * height` is
  zero. The model requires a positive layer size.
- Day08.Part2: a layer shorter than `width * height` panics on indexing in the
  source. The model requires full layers.
- Day12.UpdateVel: an empty moon list underflows `len() - 1` in the source.
  The model requires at least one moon.
- Day12.Simulate: for the same reason, the model requires at least one moon
  whenever at least one step is taken.
- Day 12's `find_cycle` is left out. It is a search over axis states with a
  hash map and a least-common-multiple step.
