/** The machine itself: 50 words of memory updated in place, the three
    registers and the CPU state, with the operations that drive it. Each
    operation is proved to do what the matching function over snapshots
    says. */
module Engine {
  import opened Arith
  import opened Wrappers
  import opened Decoder
  import opened Parser
  import opened Loader
  import opened Semantics

  class Machine {
    const mem: array<int>  // instructions and data alike
    var pc: int            // program counter
    var ac: int            // accumulator
    var mq: int            // multiplier-quotient
    var state: CPUState

    ghost predicate Valid()
      reads this
    {
      mem.Length == MemSize
    }

    /** The machine's state as a value. */
    function View(): Snapshot
      reads this, mem
    {
      Snapshot(mem[..], pc, ac, mq, state)
    }

    /** A new machine: memory and registers zero, ready to run. */
    constructor ()
      ensures Valid() && fresh(mem)
      ensures View() == Snapshot(Zeros(), 0, 0, 0, CPUok)
    {
      mem := new int[MemSize](_ => 0);
      pc, ac, mq, state := 0, 0, 0, CPUok;
      new;
      assert mem[..] == Zeros();
    }

    /** Whether execution cannot continue. */
    predicate Halted()
      reads this, mem
      ensures Halted() <==> Semantics.Halted(View())
    {
      state != CPUok
    }

    /** Zeroes the registers and makes the CPU ready; memory is kept. */
    method ResetCPU()
      requires Valid()
      modifies this
      ensures Valid()
      ensures View() == old(View()).(pc := 0, ac := 0, mq := 0, state := CPUok)
      ensures (forall i :: 0 <= i < MemSize ==> Bounded(mem[i])) ==> Sane(View()) && !Halted()
    {
      ac := 0;
      mq := 0;
      pc := 0;
      state := CPUok;
    }

    /** Carries out a decoded instruction; PC has already moved past it.
        `input` is what the input hook returns when the instruction is GET;
        `out` is what the instruction hands to the output hook. */
    method Execute(inst: Instruction, input: int) returns (out: Option<int>)
      requires Valid() && InBounds(inst.addr)
      modifies this, mem
      ensures Valid()
      ensures StepResult(View(), out) == Semantics.Execute(old(View()), inst, input)
    {
      var t := inst.addr;
      out := None;
      match inst.op {
        case HLT => state := CPUhalt;
        case JEQ => if ac == 0 { pc := t; }
        case JGT => if ac > 0 { pc := t; }
        case JLT => if ac < 0 { pc := t; }
        case JMP => pc := t;
        case JLE => if ac <= 0 { pc := t; }
        case JNE => if ac != 0 { pc := t; }
        case LAC => ac := mem[t];
        case PAC => mem[t] := ac;
        case LMQ => mq := mem[t];
        case PMQ => mem[t] := mq;
        case ADD => ac := BoundsCap(ac + mem[t]);
        case SUB => ac := BoundsCap(ac - mem[t]);
        case MUL => mq := BoundsCap(mq * mem[t]);
        case DIV =>
          if mem[t] == 0 {
            state := CPUdivzero;
            return;
          }
          ac := TruncMod(mq, mem[t]);
          mq := TruncDiv(mq, mem[t]);
        case GET => mem[t] := BoundsCap(input);
        case PUT => out := Some(mem[t]);
        case UNK => state := CPUbadinst;
      }
    }

    /** One fetch/decode/execute cycle, whatever the CPU state. */
    method Step(input: int) returns (out: Option<int>)
      requires Valid()
      modifies this, mem
      ensures Valid()
      ensures StepResult(View(), out) == Semantics.Step(old(View()), input)
    {
      var (inst, cs) := Decode(mem[..], pc);
      if cs != CPUok {
        state := cs;
        return None;
      }
      pc := pc + 1;
      out := Execute(inst, input);
    }

    /** Loads a program given as its lines: the CPU is halted, memory is
        cleared, and each line's value is stored, clamped, at its address
        until a line fails. The registers are left as they were. */
    method LoadProgram(lines: seq<string>) returns (err: Option<LoadError>)
      requires Valid()
      modifies this, mem
      ensures Valid()
      ensures mem[..] == Load(lines).mem && err == Load(lines).error
      ensures state == (if err == None then CPUok else CPUhalt)
      ensures pc == old(pc) && ac == old(ac) && mq == old(mq)
    {
      state := CPUhalt;
      var i := 0;
      while i < mem.Length
        modifies mem
        invariant 0 <= i <= mem.Length
        invariant forall j :: 0 <= j < i ==> mem[j] == 0
      {
        mem[i] := 0;
        i := i + 1;
      }
      assert mem[..] == Zeros();
      ghost var rs := ParseAll(lines);
      var n := 0;
      while n < |lines|
        modifies mem
        invariant 0 <= n <= |lines|
        invariant Apply(mem[..], rs[n..]) == Load(lines)
      {
        assert rs[n..][0] == ParseLine(lines[n]) && rs[n..][1..] == rs[n + 1..];
        match ParseLine(lines[n]) {
          case Reject(e) =>
            return Some(e);
          case Assign(a, v) =>
            mem[a] := BoundsCap(v);
        }
        n := n + 1;
      }
      state := CPUok;
      return None;
    }

    /** One turn of the run loop: a step, then the halt check. The output
        and input count of the run so far are carried along; seen from the
        run they belong to, the rest of the run is what it was. */
    method RunTurn(ghost goal: RunResult, ghost fuel: nat, read: nat -> int, k: nat, done: seq<int>, ghost steps: nat)
      returns (k': nat, done': seq<int>, halted: bool)
      requires Valid() && fuel > 0
      requires goal == Resume(false, View(), fuel, read, k, done, steps)
      modifies this, mem
      ensures Valid()
      ensures goal == Resume(halted, View(), fuel - 1, read, k', done', steps + 1)
    {
      var reading := ReadsInput(View());
      var out := Step(read(k));
      k' := if reading then k + 1 else k;
      done' := done + Emitted(out);
      halted := Halted();
    }

    /** Steps until the machine halts or `fuel` steps have been taken. The
        k-th value the input hook returns is `read(k)`; the outputs are
        collected in order. */
    method Run(fuel: nat, read: nat -> int) returns (outputs: seq<int>, inputs: nat, steps: nat)
      requires Valid()
      modifies this, mem
      ensures Valid()
      ensures RunFrom(old(View()), fuel, read, 0) == RunResult(View(), outputs, inputs, steps)
    {
      ghost var goal := RunFrom(View(), fuel, read, 0);
      ResumeStart(View(), fuel, read);
      outputs, inputs, steps := [], 0, 0;
      var left, halted := fuel, false;
      while left > 0 && !halted
        invariant Valid()
        invariant goal == Resume(halted, View(), left, read, inputs, outputs, steps)
      {
        inputs, outputs, halted := RunTurn(goal, left, read, inputs, outputs, steps);
        left, steps := left - 1, steps + 1;
      }
      assert goal == RunResult(View(), outputs, inputs, steps);
    }
  }
}
