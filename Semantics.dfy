/** The fetch/decode/execute cycle as pure functions over a snapshot of the
    machine, and runs of it under a step budget. */
module Semantics {
  import opened Arith
  import opened Wrappers
  import opened Decoder

  /** Everything a step reads or changes: memory, program counter,
      accumulator, multiplier-quotient and CPU state. */
  datatype Snapshot = Snapshot(mem: seq<int>, pc: int, ac: int, mq: int, state: CPUState)

  /** A step's effect: the next snapshot and the value handed to the output
      hook, if the step called it. */
  datatype StepResult = StepResult(next: Snapshot, out: Option<int>)

  /** Execution cannot continue: any state other than CPUok. */
  predicate Halted(s: Snapshot) {
    s.state != CPUok
  }

  /** Memory holds 50 words, every word and both registers are legal values,
      and the program counter is an address or one past the last. */
  predicate Sane(s: Snapshot) {
    && |s.mem| == MemSize
    && (forall i :: 0 <= i < MemSize ==> Bounded(s.mem[i]))
    && Bounded(s.ac) && Bounded(s.mq)
    && 0 <= s.pc <= MemSize
  }

  /** Whether `op` transfers control to its target when AC holds `ac`. */
  predicate Jumps(op: Mnemonic, ac: int) {
    match op
    case JMP => true
    case JEQ => ac == 0
    case JGT => ac > 0
    case JLT => ac < 0
    case JLE => ac <= 0
    case JNE => ac != 0
    case _ => false
  }

  /** The operations that store into memory at their target. */
  predicate WritesMemory(op: Mnemonic) {
    op == PAC || op == PMQ || op == GET
  }

  /** Carries out a decoded instruction on `s`, whose program counter has
      already moved past it; `input` is what the input hook returns if the
      instruction asks for it. */
  function Execute(s: Snapshot, inst: Instruction, input: int): (r: StepResult)
    requires |s.mem| == MemSize && InBounds(inst.addr)
    ensures |r.next.mem| == MemSize
    // Control: a taken jump goes to the target, anything else falls through.
    ensures r.next.pc == (if Jumps(inst.op, s.ac) then inst.addr else s.pc)
    // Memory: no word other than the target changes.
    ensures forall i :: 0 <= i < MemSize && i != inst.addr ==> r.next.mem[i] == s.mem[i]
    // State: HLT halts, a zero divisor and an unknown operation stop the CPU.
    ensures r.next.state ==
      if inst.op == HLT then CPUhalt
      else if inst.op == DIV && s.mem[inst.addr] == 0 then CPUdivzero
      else if inst.op == UNK then CPUbadinst
      else s.state
    // Output: only PUT calls the output hook, with the target word.
    ensures r.out == if inst.op == PUT then Some(s.mem[inst.addr]) else None
  {
    var t := inst.addr;
    match inst.op
    case HLT => StepResult(s.(state := CPUhalt), None)
    case JEQ => StepResult(if s.ac == 0 then s.(pc := t) else s, None)
    case JGT => StepResult(if s.ac > 0 then s.(pc := t) else s, None)
    case JLT => StepResult(if s.ac < 0 then s.(pc := t) else s, None)
    case JMP => StepResult(s.(pc := t), None)
    case JLE => StepResult(if s.ac <= 0 then s.(pc := t) else s, None)
    case JNE => StepResult(if s.ac != 0 then s.(pc := t) else s, None)
    case LAC => StepResult(s.(ac := s.mem[t]), None)
    case PAC => StepResult(s.(mem := s.mem[t := s.ac]), None)
    case LMQ => StepResult(s.(mq := s.mem[t]), None)
    case PMQ => StepResult(s.(mem := s.mem[t := s.mq]), None)
    case ADD => StepResult(s.(ac := BoundsCap(s.ac + s.mem[t])), None)
    case SUB => StepResult(s.(ac := BoundsCap(s.ac - s.mem[t])), None)
    case MUL => StepResult(s.(mq := BoundsCap(s.mq * s.mem[t])), None)
    case DIV =>
      if s.mem[t] == 0 then StepResult(s.(state := CPUdivzero), None)
      else StepResult(s.(ac := TruncMod(s.mq, s.mem[t]), mq := TruncDiv(s.mq, s.mem[t])), None)
    case GET => StepResult(s.(mem := s.mem[t := BoundsCap(input)]), None)
    case PUT => StepResult(s, Some(s.mem[t]))
    case UNK => StepResult(s.(state := CPUbadinst), None)
  }

  /** Only PAC, PMQ and GET write memory, each at its target: PAC stores
      AC, PMQ stores MQ and GET stores the clamped input. */
  lemma ExecuteMemory(s: Snapshot, inst: Instruction, input: int)
    requires |s.mem| == MemSize && InBounds(inst.addr)
    ensures var r := Execute(s, inst, input);
      && (!WritesMemory(inst.op) ==> r.next.mem == s.mem)
      && (inst.op == PAC ==> r.next.mem[inst.addr] == s.ac)
      && (inst.op == PMQ ==> r.next.mem[inst.addr] == s.mq)
      && (inst.op == GET ==> r.next.mem[inst.addr] == BoundsCap(input))
  {
  }

  /** Only LAC, ADD, SUB and DIV change AC, and only LMQ, MUL and DIV change
      MQ; sums, differences and products are clamped. */
  lemma ExecuteRegisters(s: Snapshot, inst: Instruction, input: int)
    requires |s.mem| == MemSize && InBounds(inst.addr)
    ensures var r, m := Execute(s, inst, input), s.mem[inst.addr];
      && (inst.op !in {LAC, ADD, SUB, DIV} ==> r.next.ac == s.ac)
      && (inst.op == LAC ==> r.next.ac == m)
      && (inst.op == ADD ==> r.next.ac == BoundsCap(s.ac + m))
      && (inst.op == SUB ==> r.next.ac == BoundsCap(s.ac - m))
      && (inst.op !in {LMQ, MUL, DIV} ==> r.next.mq == s.mq)
      && (inst.op == LMQ ==> r.next.mq == m)
      && (inst.op == MUL ==> r.next.mq == BoundsCap(s.mq * m))
  {
  }

  /** DIV by zero changes nothing but the state. Otherwise the old MQ is the
      divisor times the new MQ plus the new AC, the remainder is smaller
      than the divisor and carries the dividend's sign; these facts pin the
      quotient and remainder down to Go's truncating ones. */
  lemma ExecuteDiv(s: Snapshot, inst: Instruction, input: int)
    requires |s.mem| == MemSize && InBounds(inst.addr) && inst.op == DIV
    ensures var r, m := Execute(s, inst, input), s.mem[inst.addr];
      && (m == 0 ==> r.next == s.(state := CPUdivzero))
      && (m != 0 ==>
        && s.mq == m * r.next.mq + r.next.ac
        && Abs(r.next.ac) < Abs(m)
        && (s.mq >= 0 ==> r.next.ac >= 0) && (s.mq <= 0 ==> r.next.ac <= 0))
  {
    if s.mem[inst.addr] != 0 {
      TruncDivMod(s.mq, s.mem[inst.addr]);
    }
  }

  /** Executing an instruction keeps every value legal, and what it outputs
      is legal. */
  lemma ExecuteSane(s: Snapshot, inst: Instruction, input: int)
    requires |s.mem| == MemSize && InBounds(inst.addr)
    ensures var r := Execute(s, inst, input);
      Sane(s) ==> Sane(r.next) && (r.out.Some? ==> Bounded(r.out.value))
  {
  }

  /** One fetch/decode/execute cycle. It does not look at the CPU state
      first: a halted machine that is stepped executes again. */
  function Step(s: Snapshot, input: int): (r: StepResult)
    requires |s.mem| == MemSize
    ensures |r.next.mem| == MemSize
  {
    var (inst, cs) := Decode(s.mem, s.pc);
    if cs != CPUok then StepResult(s.(state := cs), None)
    else Execute(s.(pc := s.pc + 1), inst, input)
  }

  /** A word that does not decode only records why: the state becomes the
      decoder's verdict and nothing else changes. */
  lemma StepRejects(s: Snapshot, input: int)
    requires |s.mem| == MemSize && Decode(s.mem, s.pc).1 != CPUok
    ensures var r := Step(s, input);
      && r.next.state == Decode(s.mem, s.pc).1
      && r.next.mem == s.mem && r.next.pc == s.pc && r.next.ac == s.ac && r.next.mq == s.mq
      && r.out == None
  {
  }

  /** A valid instruction moves PC past itself unless it is a taken jump,
      and then executes with that PC; this holds for a zero divisor and for
      HLT too. */
  lemma StepExecutes(s: Snapshot, input: int)
    requires |s.mem| == MemSize && Decode(s.mem, s.pc).1 == CPUok
    ensures var inst, r := Decode(s.mem, s.pc).0, Step(s, input);
      && r.next.pc == (if Jumps(inst.op, s.ac) then inst.addr else s.pc + 1)
      && r == Execute(s.(pc := s.pc + 1), inst, input)
  {
  }

  /** A step keeps every value legal, and what it outputs is legal. */
  lemma StepSane(s: Snapshot, input: int)
    requires Sane(s)
    ensures var r := Step(s, input);
      Sane(r.next) && (r.out.Some? ==> Bounded(r.out.value))
  {
    var (inst, cs) := Decode(s.mem, s.pc);
    if cs == CPUok {
      ExecuteSane(s.(pc := s.pc + 1), inst, input);
    }
  }

  /** Whether the next step calls the input hook (a valid GET). */
  predicate ReadsInput(s: Snapshot)
    requires |s.mem| == MemSize
  {
    var (inst, cs) := Decode(s.mem, s.pc);
    cs == CPUok && inst.op == GET
  }

  /** The values a step handed to the output hook. */
  function Emitted(out: Option<int>): seq<int> {
    if out.Some? then [out.value] else []
  }

  /** The outcome of a run: the last snapshot, every output in order, how
      many values were read and how many steps were taken. */
  datatype RunResult = RunResult(final: Snapshot, outputs: seq<int>, inputs: nat, steps: nat)

  /** Runs from `s` for at most `fuel` steps, stopping after the first step
      that leaves the machine halted. The k-th value the input hook returns
      is `read(k)`; `k` values have been read already. */
  function RunFrom(s: Snapshot, fuel: nat, read: nat -> int, k: nat): (r: RunResult)
    requires |s.mem| == MemSize
    ensures |r.final.mem| == MemSize
    ensures r.steps <= fuel && (fuel > 0 ==> r.steps >= 1)
    ensures r.steps < fuel ==> Halted(r.final)
    ensures fuel == 0 ==> r.final == s
    ensures k <= r.inputs <= k + r.steps && |r.outputs| <= r.steps
    decreases fuel, 0
  {
    if fuel == 0 then RunResult(s, [], k, 0) else StepThenRun(s, fuel - 1, read, k)
  }

  /** A run that takes one step from `s`, stops there if the machine halted,
      and otherwise goes on for at most `more` steps. */
  function StepThenRun(s: Snapshot, more: nat, read: nat -> int, k: nat): (r: RunResult)
    requires |s.mem| == MemSize
    ensures |r.final.mem| == MemSize
    ensures 1 <= r.steps <= more + 1
    ensures r.steps <= more ==> Halted(r.final)
    ensures k <= r.inputs <= k + r.steps && |r.outputs| <= r.steps
    decreases more, 1
  {
    var st := Step(s, read(k));
    var k' := if ReadsInput(s) then k + 1 else k;
    var rest := if Halted(st.next) then RunResult(st.next, [], k', 0) else RunFrom(st.next, more, read, k');
    RunResult(rest.final, Emitted(st.out) + rest.outputs, rest.inputs, rest.steps + 1)
  }

  /** Once a run halts within its budget, a larger budget gives the same
      run: the step budget only cuts off runs that would go on. */
  lemma {:induction false} RunMoreFuel(s: Snapshot, fuel: nat, more: nat, read: nat -> int, k: nat)
    requires |s.mem| == MemSize && fuel <= more
    requires RunFrom(s, fuel, read, k).steps < fuel
    ensures RunFrom(s, more, read, k) == RunFrom(s, fuel, read, k)
    decreases fuel, 0
  {
    StepThenRunMoreFuel(s, fuel - 1, more - 1, read, k);
  }

  lemma {:induction false} StepThenRunMoreFuel(s: Snapshot, fuel: nat, more: nat, read: nat -> int, k: nat)
    requires |s.mem| == MemSize && fuel <= more
    requires StepThenRun(s, fuel, read, k).steps <= fuel
    ensures StepThenRun(s, more, read, k) == StepThenRun(s, fuel, read, k)
    decreases fuel, 1
  {
    var st := Step(s, read(k));
    var k' := if ReadsInput(s) then k + 1 else k;
    if !Halted(st.next) {
      RunMoreFuel(st.next, fuel, more, read, k');
    }
  }

  /** A halt ends the run: no step before the last one leaves the machine
      halted. With the contract of RunFrom, a run stops exactly after the
      first step that halts, or when its budget is spent. */
  lemma {:induction false} RunStopsAtFirstHalt(s: Snapshot, fuel: nat, read: nat -> int, k: nat)
    requires |s.mem| == MemSize
    ensures forall n :: 0 < n < RunFrom(s, fuel, read, k).steps ==> !Halted(RunFrom(s, n, read, k).final)
    decreases fuel
  {
    if fuel > 0 {
      var next, k' := FirstStep(s, read, k);
      if !Halted(next) {
        RunStopsAtFirstHalt(next, fuel - 1, read, k');
      }
    }
  }

  /** Every run from `s` with some budget starts with the same step, to
      `next` having read up to `k'`: it stops there if `next` is halted, and
      otherwise goes on as a run from `next` with one step less. */
  lemma FirstStep(s: Snapshot, read: nat -> int, k: nat) returns (next: Snapshot, k': nat)
    requires |s.mem| == MemSize
    ensures |next.mem| == MemSize
    ensures Halted(next) ==> forall n :: n > 0 ==> RunFrom(s, n, read, k).steps == 1
    ensures !Halted(next) ==> forall n :: n > 0 ==>
      && RunFrom(s, n, read, k).final == RunFrom(next, n - 1, read, k').final
      && RunFrom(s, n, read, k).steps == RunFrom(next, n - 1, read, k').steps + 1
  {
    next, k' := Step(s, read(k)).next, if ReadsInput(s) then k + 1 else k;
    forall n | n > 0
      ensures Halted(next) ==> RunFrom(s, n, read, k).steps == 1
      ensures !Halted(next) ==>
        && RunFrom(s, n, read, k).final == RunFrom(next, n - 1, read, k').final
        && RunFrom(s, n, read, k).steps == RunFrom(next, n - 1, read, k').steps + 1
    {
      if Halted(next) {
        RunAfterHaltingStep(s, n, read, k);
      } else {
        RunAfterFirstStep(s, n, read, k);
      }
    }
  }

  /** A run whose first step does not halt goes on from that step's state. */
  lemma RunAfterFirstStep(s: Snapshot, fuel: nat, read: nat -> int, k: nat)
    requires |s.mem| == MemSize && fuel > 0 && !Halted(Step(s, read(k)).next)
    ensures var r, rest := RunFrom(s, fuel, read, k),
                           RunFrom(Step(s, read(k)).next, fuel - 1, read, if ReadsInput(s) then k + 1 else k);
      r.final == rest.final && r.steps == rest.steps + 1
  {
    assert RunFrom(s, fuel, read, k) == StepThenRun(s, fuel - 1, read, k);
  }

  /** A run whose first step halts stops there. */
  lemma RunAfterHaltingStep(s: Snapshot, fuel: nat, read: nat -> int, k: nat)
    requires |s.mem| == MemSize && fuel > 0 && Halted(Step(s, read(k)).next)
    ensures RunFrom(s, fuel, read, k).steps == 1
  {
    assert RunFrom(s, fuel, read, k) == StepThenRun(s, fuel - 1, read, k);
  }

  /** The run loop from `s` onwards, after an earlier part that collected
      `outputs`, read `k` inputs, took `steps` steps and ended halted or not:
      step while there is budget and the machine has not halted. Inputs and
      steps only grow, the steps by at most `fuel`; ResumeRuns says what is
      added. */
  function Resume(halted: bool, s: Snapshot, fuel: nat, read: nat -> int, k: nat, outputs: seq<int>, steps: nat): (r: RunResult)
    requires |s.mem| == MemSize
    ensures steps <= r.steps <= steps + fuel && k <= r.inputs
    decreases fuel, 0
  {
    if halted || fuel == 0 then RunResult(s, outputs, k, steps)
    else ResumeStepping(s, fuel - 1, read, k, outputs, steps)
  }

  /** One turn of the run loop from `s`, then the loop with `more` budget. */
  function ResumeStepping(s: Snapshot, more: nat, read: nat -> int, k: nat, outputs: seq<int>, steps: nat): (r: RunResult)
    requires |s.mem| == MemSize
    ensures steps < r.steps <= steps + more + 1 && k <= r.inputs
    decreases more, 1
  {
    var st := Step(s, read(k));
    Resume(Halted(st.next), st.next, more, read, if ReadsInput(s) then k + 1 else k,
           outputs + Emitted(st.out), steps + 1)
  }

  /** Resuming is the earlier part followed by a run from `s`: the final
      state, inputs and steps are the run's, and the outputs are the earlier
      ones followed by the run's; after a halt, or with no budget left,
      nothing is added. */
  lemma {:induction false} ResumeRuns(halted: bool, s: Snapshot, fuel: nat, read: nat -> int, k: nat,
                                      outputs: seq<int>, steps: nat)
    requires |s.mem| == MemSize
    ensures var r := Resume(halted, s, fuel, read, k, outputs, steps);
      && (halted || fuel == 0 ==> r == RunResult(s, outputs, k, steps))
      && (!halted ==>
            var rest := RunFrom(s, fuel, read, k);
            && r.final == rest.final && r.outputs == outputs + rest.outputs
            && r.inputs == rest.inputs && r.steps == steps + rest.steps)
    decreases fuel
  {
    if !halted && fuel > 0 {
      var st := Step(s, read(k));
      var k' := if ReadsInput(s) then k + 1 else k;
      ResumeRuns(Halted(st.next), st.next, fuel - 1, read, k', outputs + Emitted(st.out), steps + 1);
      assert RunFrom(s, fuel, read, k) == StepThenRun(s, fuel - 1, read, k);
      ResumeRunsAfter(s, fuel, read, k, outputs, steps, st, k');
    }
  }

  /** The bookkeeping step of ResumeRuns, for any first step `st`: once the
      loop and the run both take `st` first, and resuming after `st` is the
      rest of the run, resuming before `st` is the whole run. */
  lemma ResumeRunsAfter(s: Snapshot, fuel: nat, read: nat -> int, k: nat, outputs: seq<int>, steps: nat,
                        st: StepResult, k': nat)
    requires |s.mem| == MemSize && |st.next.mem| == MemSize && fuel > 0
    requires Resume(false, s, fuel, read, k, outputs, steps)
      == Resume(Halted(st.next), st.next, fuel - 1, read, k', outputs + Emitted(st.out), steps + 1)
    requires RunFrom(s, fuel, read, k) ==
      var rest := if Halted(st.next) then RunResult(st.next, [], k', 0) else RunFrom(st.next, fuel - 1, read, k');
      RunResult(rest.final, Emitted(st.out) + rest.outputs, rest.inputs, rest.steps + 1)
    requires var r := Resume(Halted(st.next), st.next, fuel - 1, read, k', outputs + Emitted(st.out), steps + 1);
      && (Halted(st.next) || fuel == 1 ==> r == RunResult(st.next, outputs + Emitted(st.out), k', steps + 1))
      && (!Halted(st.next) ==>
            var rest := RunFrom(st.next, fuel - 1, read, k');
            && r.final == rest.final && r.outputs == outputs + Emitted(st.out) + rest.outputs
            && r.inputs == rest.inputs && r.steps == steps + 1 + rest.steps)
    ensures var r, rest := Resume(false, s, fuel, read, k, outputs, steps), RunFrom(s, fuel, read, k);
      && r.final == rest.final && r.outputs == outputs + rest.outputs
      && r.inputs == rest.inputs && r.steps == steps + rest.steps
  {
    var e := Emitted(st.out);
    var rest := if Halted(st.next) then RunResult(st.next, [], k', 0) else RunFrom(st.next, fuel - 1, read, k');
    if Halted(st.next) || fuel == 1 {
      assert rest == RunResult(st.next, [], k', 0);
      assert outputs + e + [] == outputs + e;
    }
    JoinRuns(outputs, e, Resume(false, s, fuel, read, k, outputs, steps), rest, RunFrom(s, fuel, read, k), steps);
  }

  /** Joining records: a loop that added `e` and then `rest`'s outputs, and a
      run that emitted `e` and then did `rest`, agree. */
  lemma JoinRuns(outputs: seq<int>, e: seq<int>, r: RunResult, rest: RunResult, run: RunResult, steps: nat)
    requires run == RunResult(rest.final, e + rest.outputs, rest.inputs, rest.steps + 1)
    requires && r.final == rest.final && r.outputs == outputs + e + rest.outputs
             && r.inputs == rest.inputs && r.steps == steps + 1 + rest.steps
    ensures && r.final == run.final && r.outputs == outputs + run.outputs
            && r.inputs == run.inputs && r.steps == steps + run.steps
  {
    assert outputs + (e + rest.outputs) == outputs + e + rest.outputs;
  }

  /** Resuming from the start is the run itself. */
  lemma ResumeStart(s: Snapshot, fuel: nat, read: nat -> int)
    requires |s.mem| == MemSize
    ensures Resume(false, s, fuel, read, 0, [], 0) == RunFrom(s, fuel, read, 0)
  {
    ResumeRuns(false, s, fuel, read, 0, [], 0);
    assert [] + RunFrom(s, fuel, read, 0).outputs == RunFrom(s, fuel, read, 0).outputs;
  }

  /** A run keeps every value legal, and every output is a legal value. */
  lemma {:induction false} RunSane(s: Snapshot, fuel: nat, read: nat -> int, k: nat)
    requires Sane(s)
    ensures var r := RunFrom(s, fuel, read, k);
      Sane(r.final) && forall i :: 0 <= i < |r.outputs| ==> Bounded(r.outputs[i])
    decreases fuel, 0
  {
    if fuel > 0 {
      StepThenRunSane(s, fuel - 1, read, k);
    }
  }

  lemma {:induction false} StepThenRunSane(s: Snapshot, more: nat, read: nat -> int, k: nat)
    requires Sane(s)
    ensures var r := StepThenRun(s, more, read, k);
      Sane(r.final) && forall i :: 0 <= i < |r.outputs| ==> Bounded(r.outputs[i])
    decreases more, 1
  {
    var st := Step(s, read(k));
    var k' := if ReadsInput(s) then k + 1 else k;
    StepSane(s, read(k));
    if !Halted(st.next) {
      RunSane(st.next, more, read, k');
    }
  }

  /** Step does not consult the CPU state: two snapshots that differ only in
      their state step to the same memory, registers and output. */
  lemma StepIgnoresState(s: Snapshot, state: CPUState, input: int)
    requires |s.mem| == MemSize
    ensures var a, b := Step(s, input), Step(s.(state := state), input);
      a.next.mem == b.next.mem && a.next.pc == b.next.pc && a.next.ac == b.next.ac
      && a.next.mq == b.next.mq && a.out == b.out
  {
    var (inst, cs) := Decode(s.mem, s.pc);
    if cs == CPUok {
      var t := s.(pc := s.pc + 1);
      assert Step(s, input) == Execute(t, inst, input);
      assert Step(s.(state := state), input) == Execute(t.(state := state), inst, input);
      ExecuteIgnoresState(t, state, inst, input);
    }
  }

  /** Execute does not consult the CPU state either. */
  lemma ExecuteIgnoresState(s: Snapshot, state: CPUState, inst: Instruction, input: int)
    requires |s.mem| == MemSize && InBounds(inst.addr)
    ensures var a, b := Execute(s, inst, input), Execute(s.(state := state), inst, input);
      a.next.mem == b.next.mem && a.next.pc == b.next.pc && a.next.ac == b.next.ac
      && a.next.mq == b.next.mq && a.out == b.out
  {
  }
}
