# The Hypothetical Machine, in Dafny

This project models the execution engine of *hypo*, a small teaching
computer. The machine has:

- 50 words of memory;
- a program counter (PC);
- an accumulator (AC);
- a multiplier-quotient register (MQ);
- a CPU state: ok, bad instruction, bad address, divide by zero or halted.

A memory word `opcode * 1000 + target` encodes an instruction. The opcode
is one of 17 entries in a fixed table: jumps, loads and stores, clamped
arithmetic, and the two I/O operations GET and PUT. Every value stays in
[-99999, 99999]: sums, differences, products, inputs and loaded values are
clamped, and the other operations only move values that are already in
range. Programs are loaded from text lines of the form
`<address>: <value>`, each optionally followed by a comment.

The model has one file per part of `machine.go`:

- `Arith.dfy`: the address check, the value clamp, and Go's truncating
  `/` and `%` (Dafny's own operators are Euclidean).
- `Decoder.dfy`: the CPU states, the opcode table and the instruction
  decoder (`getInstruction`).
- `Parser.dfy`: one program line. A hand-written recogniser is proved to
  accept exactly the language of the loader's regular expression
  `^(\d+):\s*(-*\d+)(\s.*)*$`. The fields are then converted the way Go's
  `strconv.Atoi` does.
- `Loader.dfy`: what loading a sequence of lines does to memory, as a pure
  function.
- `Semantics.dfy`: one fetch/decode/execute step and a run under a step
  budget, as pure functions over a snapshot of the machine.
- `Engine.dfy`: the machine as a class. Memory is an `array<int>` updated
  in place. `Step`, `LoadProgram`, `ResetCPU` and `Run` are proved to do
  what the functions of `Semantics.dfy` and `Loader.dfy` say.
- `Examples.dfy`: the model on concrete inputs:
  - decoding, arithmetic, I/O and line vectors from the repository's tests;
  - the sample program `PUT 2; JMP 0` with 99103 in word 2, which prints
    forever.

The input hook becomes a function `read: nat -> int`, where `read(k)` is
the k-th value read. Output becomes the optional value a step hands to the
output hook, collected into a sequence by a run.

## Model

| member | source | states |
|---|---|---|
| Arith.InBounds | machine.go:17-19 | definition: an address names a memory word when it lies in [0, 50) |
| Arith.BoundsCap | machine.go:23-33 | the result is always in [-99999, 99999]; values already in range are unchanged; anything above saturates to 99999 and anything below to -99999 |
| Arith.BoundsCapIdempotent | machine.go:23-33 | clamping twice equals clamping once, and the clamp is monotone |
| Arith.TruncDiv | machine.go:170 | Go's `/`: the quotient truncated toward zero; its magnitude never exceeds the dividend's |
| Arith.TruncMod | machine.go:171 | Go's `%`: the remainder is smaller in magnitude than the divisor and has the sign of the dividend |
| Arith.TruncDivMod | machine.go:289-290 | dividend == divisor * quotient + remainder |
| Arith.TruncDivModUnique | machine.go:289-290 | any q, r with a == b*q + r, \|r\| < \|b\| and r carrying a's sign are exactly Go's quotient and remainder, so these facts characterise `/` and `%` |
| Decoder.OpOf | machine.go:86-104 | definition: the operation each of the 17 opcodes names, UNK for any other number |
| Decoder.Opcode | machine.go:86-104 | reading the opcode table backwards: the opcode of each of the 17 operations names that operation |
| Decoder.OpsTable | machine.go:86-104 | the table holds exactly opcodes 0-3, 5-7, 10-13, 20-23, 30 and 31, and no two of them name the same operation |
| Decoder.Decode | machine.go:164-180 | an ok verdict always carries a known operation and an in-memory target |
| Decoder.DecodeOk | machine.go:164-180 | a word decodes as (op, target) with an ok verdict if and only if the address is in memory, op is known, the target is in memory, and the word equals op's opcode * 1000 + target |
| Decoder.DecodeRejects | machine.go:165-177 | an address outside memory gives (UNK, 0) and bad-instruction; an unknown opcode gives (UNK, target) and bad-instruction; a known opcode whose target is outside memory gives (op, target) and bad-address |
| Decoder.DecodeNegative | machine.go:169-177 | a negative word never decodes as ok; a word in (-1000, 0) decodes as HLT with itself as target, which is a bad address |
| Parser.Recognise | machine.go:193-198 | definition: the hand-written matcher returning the address digits and the value field, or nothing; Parser.RecogniseCorrect ties it to the grammar |
| Parser.ParseLine | machine.go:193-214 | definition: a grammar mismatch is a bad line, a failed conversion or an address outside memory a bad address, a failed value conversion a bad value, and anything else an assignment; Parser.ParseLineClassified states it per case |
| Parser.SpanUnique | machine.go:193 | a maximal run of one character class is unique, so each part of the line grammar is determined |
| Parser.GroupsIsTrailer | machine.go:193 | the trailer `(\s.*)*` matches exactly the empty string and the strings that begin with whitespace |
| Parser.RecogniseCorrect | machine.go:193-198 | the recogniser accepts a line if and only if the regular expression matches it |
| Parser.RecogniseComplete | machine.go:193-198 | for any split of a line as the grammar allows, the recogniser returns that split's address digits and value |
| Parser.RecogniseSound | machine.go:193-198 | every line the recogniser accepts matches the grammar |
| Parser.Atoi | machine.go:200-204 | Go's Atoi: whatever it returns fits in 64 bits |
| Parser.AtoiItoa | machine.go:200-204 | Atoi reads back every 64-bit integer written in decimal |
| Parser.AtoiDigits | machine.go:200-204 | on a run of digits, Atoi returns its decimal value, or fails when that value exceeds the 64-bit range |
| Parser.AtoiValue | machine.go:210-214 | on the value group, no dash gives the number, one dash gives its negation, and two or more dashes fail |
| Parser.DigitsValue | machine.go:200-204 | the decimal digits of n denote n |
| Parser.ParseLineClassified | machine.go:193-214 | bad-line if and only if the grammar does not match; otherwise bad-address if and only if the address denotes 50 or more; otherwise bad-value if and only if the value has several dashes or does not fit 64 bits; otherwise the line assigns the value to the address |
| Parser.ParseFormatLine | machine.go:193-215 | every line written as `<addr>: <value>` followed by an optional comment loads back as that assignment |
| Loader.Zeros | machine.go:186 | definition: memory before the first line, 50 words, all zero |
| Loader.ParseAll | machine.go:189-214 | definition: each line is classified on its own, in input order |
| Loader.Apply | machine.go:189-216 | definition: the lines' writes applied in order keep memory at 50 words; it stops at the first rejected line and reports its error (Loader.ApplyStopsAtFirstFailure, Loader.ApplyLastWriteWins) |
| Loader.Load | machine.go:182-227 | definition: loading lines onto zeroed memory keeps 50 words; Loader.LoadSummary states the error and every word |
| Loader.FirstFailure | machine.go:189-216 | every line before the returned index parses, and the line at that index, if any, is rejected |
| Loader.ApplyStopsAtFirstFailure | machine.go:189-216 | the load is fail-fast: the error is that of the first failing line, and memory is what the lines before it wrote |
| Loader.ApplyLastWriteWins | machine.go:215 | with no failing line, each word holds the clamped value of the last line naming it, whatever the order of addresses; unnamed words keep their value |
| Loader.ApplyBounded | machine.go:215 | loading keeps every word in range |
| Loader.LoadSummary | machine.go:182-227 | a load's error is the first failing line's; each word is zero unless a line before that one names it, the last such line decides its clamped value, and every word is in range |
| Semantics.Halted | machine.go:302-304 | definition: execution cannot continue exactly when the CPU state is not ok |
| Semantics.Execute | machine.go:244-297 | a taken jump sets PC to the target and anything else keeps it; no word other than the target changes; HLT halts; DIV by zero gives divide-by-zero; an unknown operation gives bad-instruction; only PUT calls the output hook, with the target word |
| Semantics.ExecuteMemory | machine.go:272-294 | only PAC, PMQ and GET write memory, storing AC, MQ and the clamped input respectively at the target |
| Semantics.ExecuteRegisters | machine.go:270-283 | only LAC, ADD, SUB and DIV change AC, and only LMQ, MUL and DIV change MQ; sums, differences and products are clamped |
| Semantics.ExecuteDiv | machine.go:284-290 | DIV by zero changes only the state; otherwise old MQ == divisor * new MQ + new AC, and the remainder is smaller than the divisor and has the dividend's sign |
| Semantics.ExecuteSane | machine.go:270-294 | every instruction keeps every word and register in range, and its output is in range |
| Semantics.Step | machine.go:233-298 | definition: one fetch/decode/execute cycle keeps memory at 50 words; it does not look at the CPU state first (Semantics.StepRejects, Semantics.StepExecutes) |
| Semantics.StepRejects | machine.go:234-238 | when the word at PC does not decode, the state becomes the decoder's verdict, and memory, PC, AC and MQ are unchanged, with no output |
| Semantics.StepExecutes | machine.go:244-269 | a valid instruction leaves PC at old PC + 1 unless it is a taken jump, even for HLT and a zero divisor, and executes with that PC |
| Semantics.StepSane | machine.go:233-298 | a step from a state where every value is in range and PC is at most 50 keeps all of that, and its output is in range |
| Semantics.StepIgnoresState | machine.go:233-238 | Step does not consult the CPU state: snapshots that differ only in state step to the same memory, registers and output |
| Semantics.ExecuteIgnoresState | machine.go:245-297 | executing an instruction does not consult the CPU state either |
| Semantics.RunFrom | machine.go:343-351 | a run takes at most its budget of steps and at least one if it has any; stopping early means the machine halted; each step reads at most one input and emits at most one output; the converse, that a halt ends the run, is Semantics.RunStopsAtFirstHalt |
| Semantics.StepThenRun | machine.go:344-349 | one loop turn followed by the rest of the run: it takes at least one step and stops early only when halted; that a halting first step ends it is Semantics.RunAfterHaltingStep |
| Semantics.RunStopsAtFirstHalt | machine.go:342-349 | no step before a run's last one leaves the machine halted; with RunFrom's contract, a run stops exactly after the first halting step or when its budget is spent |
| Semantics.FirstStep | machine.go:344-349 | every run with some budget starts with the same step: if that step halts the run takes one step, otherwise it goes on as a run from the new state with one step less |
| Semantics.RunAfterFirstStep | machine.go:344-349 | a run whose first step does not halt ends where the run from that step's state ends, one step longer |
| Semantics.RunAfterHaltingStep | machine.go:345-348 | a run whose first step halts takes that one step only |
| Semantics.RunMoreFuel | machine.go:343-351 | a run that halts within its budget is the same under any larger budget: the budget only cuts off runs that would go on |
| Semantics.RunSane | machine.go:343-351 | a run keeps every value in range, and every output is in range |
| Semantics.Resume | machine.go:343-351 | the run loop continued from `s` after an earlier part: the step count grows by at most the budget, and the input count never falls |
| Semantics.ResumeStepping | machine.go:344-349 | one loop turn and then the rest of the loop takes at least one and at most budget + 1 more steps |
| Semantics.ResumeRuns | machine.go:343-351 | continuing the loop is the earlier part followed by a run from `s`: that run's final state, input count and step count, and the earlier outputs followed by that run's outputs, so the earlier part stays a prefix; after a halt or with no budget nothing is added |
| Semantics.ResumeStart | machine.go:343-351 | resuming from nothing is the run itself |
| Engine.Machine.constructor | machine.go:156-158 | a new machine has zeroed memory, PC, AC and MQ, and an ok CPU state |
| Engine.Machine.Halted | machine.go:302-304 | true exactly when the CPU state is not ok |
| Engine.Machine.ResetCPU | machine.go:308-314 | PC, AC and MQ become zero and the state ok, with memory untouched; a machine whose memory is in range is then sane and running |
| Engine.Machine.Execute | machine.go:244-297 | the in-place execution of a decoded instruction has exactly the effect and output of Semantics.Execute |
| Engine.Machine.Step | machine.go:233-298 | the in-place step has exactly the effect and output of Semantics.Step |
| Engine.Machine.LoadProgram | machine.go:182-227 | memory ends as Loader.Load of the lines, the error is the load's error, the state is ok on success and halted on failure, and PC, AC and MQ are untouched |
| Engine.Machine.RunTurn | machine.go:345-349 | one loop turn (a step, then the halt check) advances the run without changing where it ends up |
| Engine.Machine.Run | machine.go:343-351 | running in place for at most `fuel` steps ends in RunFrom's final state, with its outputs, input count and step count |
| Examples.DecodeVectors | machine_test.go:9-54 | 6049 decodes as JLE 49 and 31032 as PUT 32, both ok; 1050 and 31050 give bad-address; 32000 and 33000 give (UNK, 0) and bad-instruction; addresses -1 and 50 give (UNK, 0) and bad-instruction |
| Examples.FreshMachineHalts | machine_test.go:149-161 | on a fresh machine one step halts at PC 1, and any run stops after that step |
| Examples.MulVectors | machine_test.go:429-453 | 3 * 4 = 12; 33333 * 4 saturates to 99999 and 33333 * -4 to -99999 |
| Examples.DivVectors | machine_test.go:455-485 | 12 DIV 9 leaves MQ 1 and AC 3; -12 DIV 9 leaves MQ -1 and AC -3; DIV by zero leaves MQ 12 and AC 0 with divide-by-zero |
| Examples.GetVectors | machine_test.go:487-512 | GET stores the clamped input; -1000000 is stored as -99999 |
| Examples.PutVectors | machine_test.go:514-539 | PUT 0 outputs 31000, the word itself; PUT 1 outputs 0 |
| Examples.CommentLine | machine_test.go:76-81 | "0: 31000 // A comment" assigns 31000 to word 0 |
| Examples.TrailingSpaceLine | machine_test.go:70-75 | "0: 31000    " (trailing whitespace, no comment) assigns 31000 to word 0 |
| Examples.NegativeLine | machine_test.go:100-105 | "1: -5 // Ok, negative  numbers" assigns -5 to word 1 |
| Examples.MissingAddressLine | machine_test.go:106-111 | ": 31000 // Bad line" is a bad line |
| Examples.EmptyLine | machine.go:193-198 | the empty line is a bad line |
| Examples.LettersInValueLine | machine_test.go:112-117 | "1: 31aasdf // Bad line" is a bad line |
| Examples.LetterAddressLine | machine_test.go:124-129 | "a: 31000 // Bad address, makes the line bad" is a bad line, not a bad address |
| Examples.AddressPastMemoryLine | machine_test.go:118-123 | "50: 31000 // Bad address" is a bad address |
| Examples.DoubleDashLine | machine.go:210-214 | "1: --5" matches the grammar but is a bad value, since Atoi takes at most one sign |
| Examples.EchoFromPut | machine.go:343-351 | the sample program run from PUT 2 never halts: it takes its whole budget, reads nothing, leaves memory and registers alone, and outputs 99103 on every other step, starting with the first |
| Examples.EchoFromJump | machine.go:343-351 | the same run from JMP 0, with the outputs on the even steps |
| Examples.EchoProgramLoads | machine.go:182-227 | loading the sample program's three lines "0: 31002", "1: 5000" and "2: 99103" gives no error and a memory holding PUT 2, JMP 0 and 99103 |
| Examples.EchoProgramRuns | machine.go:343-351 | loaded from its text and run from PC 0, the sample program uses its whole budget, reads nothing and prints 99103 on every other step |

## Left out

- The default input and output hooks (machine.go:111-137) read stdin and
  print. The model replaces them: the input is the function `read`, and
  output is the value a step emits.
- Printing and logging have no effect on the machine and are left out:
  trace output, `DumpMem`, `DumpRegs`, `DumpState`, `ToggleTrace`, the
  messages of `LoadProgram`, `ResetCPU` and `Run`, and `CPUState.String`
  and `Instruction.String`.
- hypo.go, the interactive front end, is not part of this model.
- Line splitting by `bufio.Scanner` is left out. `LoadProgram` takes the
  program as a sequence of lines, so the scanner's handling of a trailing
  `\r` and its token-size limit are not modelled. The scanner error that
  yields `loadErrBadFile` (machine.go:218-221) is never produced;
  `BadFile` exists only as a value.
- Go's regular expression engine is replaced by the recogniser
  `Parser.Recognise`, which is proved to accept exactly the lines the
  expression matches.
- Engine.Machine.Run: the Go loop has no bound and runs forever on a
  program that never halts. The model stops after `fuel` steps; a run
  that stops early has halted.
- The model assumes Go's `int` is 64 bits wide, as on the usual 64-bit
  platforms; the model's integers are unbounded. Every stored value and
  register stays within [-99999, 99999] (`Semantics.StepSane`,
  `Semantics.RunSane`), so with 64 bits no arithmetic on them can
  overflow. Atoi's 64-bit range check is modelled exactly.
- Semantics.Execute: a 32-bit build of the program is not modelled. There
  `int` has 32 bits and MUL (machine.go:283) can wrap before clamping:
  with MQ 50000 and target word 50000 the product 2500000000 wraps to
  -1794967296, so MQ becomes -99999 where the model gives 99999.
- Parser.Atoi: on a 32-bit build Atoi's range is that of 32 bits, so
  "0: 3000000000" is a bad value there; the model, with the 64-bit range,
  loads 99999.
- Engine.Machine.LoadProgram leaves PC, AC and MQ as they were, as the
  code does. It does not reset them.
- Decoder.Decode reports the target for an unknown opcode, as the code
  does: `(UNK, target)`, not `(UNK, 0)`.
