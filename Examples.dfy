/** Concrete behaviour of the model on the machine's own examples: decoding
    and single steps of a fresh machine with one instruction in memory, lines
    of the program format, and the sample program that prints forever. */
module Examples {
  import opened Arith
  import opened Wrappers
  import opened Decoder
  import opened Parser
  import opened Loader
  import opened Semantics

  /** A fresh machine whose word 0 holds `w0` and word 1 holds `w1`, with MQ
      preset to `mq`. */
  function Fresh(w0: int, w1: int, mq: int): (s: Snapshot)
    ensures |s.mem| == MemSize && s.pc == 0 && s.ac == 0 && s.state == CPUok
  {
    Snapshot(Zeros()[0 := w0][1 := w1], 0, 0, mq, CPUok)
  }

  /** Words that decode, words whose target is outside memory, unknown
      opcodes, and addresses outside memory. */
  lemma DecodeVectors()
    ensures Decode(Zeros()[0 := 6049], 0) == (Instruction(JLE, 49), CPUok)
    ensures Decode(Zeros()[0 := 31032], 0) == (Instruction(PUT, 32), CPUok)
    ensures Decode(Zeros()[0 := 1050], 0) == (Instruction(JEQ, 50), CPUbadaddr)
    ensures Decode(Zeros()[0 := 31050], 0) == (Instruction(PUT, 50), CPUbadaddr)
    ensures Decode(Zeros()[0 := 32000], 0) == (Instruction(UNK, 0), CPUbadinst)
    ensures Decode(Zeros()[0 := 33000], 0) == (Instruction(UNK, 0), CPUbadinst)
    ensures Decode(Zeros(), -1) == (Instruction(UNK, 0), CPUbadinst)
    ensures Decode(Zeros(), 50) == (Instruction(UNK, 0), CPUbadinst)
  {
  }

  /** A fresh machine's memory is all HLT 0: one step halts it, and a run
      stops after that step whatever its budget. */
  lemma FreshMachineHalts(fuel: nat, read: nat -> int)
    requires fuel >= 1
    ensures Step(Fresh(0, 0, 0), read(0)) == StepResult(Fresh(0, 0, 0).(pc := 1, state := CPUhalt), None)
    ensures RunFrom(Fresh(0, 0, 0), fuel, read, 0) == RunResult(Fresh(0, 0, 0).(pc := 1, state := CPUhalt), [], 0, 1)
  {
    var s := Fresh(0, 0, 0);
    assert Decode(s.mem, 0) == (Instruction(HLT, 0), CPUok);
    assert RunFrom(s, fuel, read, 0) == StepThenRun(s, fuel - 1, read, 0);
    assert Emitted(None) + [] == [];
  }

  /** MUL 1 multiplies MQ by word 1 and clamps the product. */
  lemma MulVectors(input: int)
    ensures Step(Fresh(22001, 4, 3), input).next.mq == 12
    ensures Step(Fresh(22001, 4, 33333), input).next.mq == 99999
    ensures Step(Fresh(22001, -4, 33333), input).next.mq == -99999
  {
  }

  /** DIV 1 truncates toward zero, the remainder taking the dividend's
      sign, and stops on a zero divisor. */
  lemma DivVectors(input: int)
    ensures var n := Step(Fresh(23001, 9, 12), input).next; n.mq == 1 && n.ac == 3 && n.state == CPUok
    ensures var n := Step(Fresh(23001, 9, -12), input).next; n.mq == -1 && n.ac == -3 && n.state == CPUok
    ensures var n := Step(Fresh(23001, 0, 12), input).next; n.mq == 12 && n.ac == 0 && n.state == CPUdivzero
  {
  }

  /** GET 0 stores the clamped input at word 0. */
  lemma GetVectors(input: int)
    ensures Step(Fresh(30000, 0, 0), input).next.mem[0] == BoundsCap(input)
    ensures Step(Fresh(30000, 0, 0), -1000000).next.mem[0] == -99999
  {
    var s := Fresh(30000, 0, 0);
    assert Decode(s.mem, 0) == (Instruction(GET, 0), CPUok);
    ExecuteMemory(s.(pc := 1), Instruction(GET, 0), input);
    ExecuteMemory(s.(pc := 1), Instruction(GET, 0), -1000000);
  }

  /** PUT hands the target word to the output hook. */
  lemma PutVectors(input: int)
    ensures Step(Fresh(31000, 0, 0), input).out == Some(31000)
    ensures Step(Fresh(31001, 0, 0), input).out == Some(0)
  {
  }

  /** A line with a comment after whitespace loads its value. */
  lemma CommentLine()
    ensures ParseLine("0: 31000 // A comment") == Assign(0, 31000)
  {
    CommentLineSplits();
    SmallDecimals();
    ParseLineClassified("0: 31000 // A comment", "0", " ", "", "31000", " // A comment");
  }

  lemma CommentLineSplits()
    ensures Splits("0: 31000 // A comment", "0", " ", "", "31000", " // A comment")
  {
    assert "0: 31000 // A comment" == "0" + ":" + " " + "" + "31000" + " // A comment";
    assert AllIn("0", DigitClass) && AllIn("31000", DigitClass);
    GroupsIsTrailer(" // A comment");
  }

  /** The values of the digit strings the examples use. */
  lemma SmallDecimals()
    ensures DecimalValue("0") == 0 && DecimalValue("1") == 1 && DecimalValue("5") == 5
    ensures DecimalValue("50") == 50 && DecimalValue("31000") == 31000
  {
    assert "0"[..0] == "1"[..0] == "5"[..0] == "3"[..0] == "";
    assert "50"[..1] == "5";
    assert "31"[..1] == "3";
    assert DecimalValue("31") == 31;
    assert "310"[..2] == "31";
    assert DecimalValue("310") == 310;
    assert "3100"[..3] == "310";
    assert DecimalValue("3100") == 3100;
    assert "31000"[..4] == "3100";
  }

  /** Whitespace after the value, with no comment, is allowed. */
  lemma TrailingSpaceLine()
    ensures ParseLine("0: 31000    ") == Assign(0, 31000)
  {
    var line := "0: 31000    ";
    assert Splits(line, "0", " ", "", "31000", "    ") by {
      assert line == "0" + ":" + " " + "" + "31000" + "    ";
      assert AllIn("0", DigitClass) && AllIn("31000", DigitClass);
      GroupsIsTrailer("    ");
    }
    SmallDecimals();
    ParseLineClassified(line, "0", " ", "", "31000", "    ");
  }

  /** A negative value loads as such. */
  lemma NegativeLine()
    ensures ParseLine("1: -5 // Ok, negative  numbers") == Assign(1, -5)
  {
    NegativeLineSplits();
    SmallDecimals();
    ParseLineClassified("1: -5 // Ok, negative  numbers", "1", " ", "-", "5", " // Ok, negative  numbers");
  }

  lemma NegativeLineSplits()
    ensures Splits("1: -5 // Ok, negative  numbers", "1", " ", "-", "5", " // Ok, negative  numbers")
  {
    assert AllIn("1", DigitClass) && AllIn("-", DashClass) && AllIn("5", DigitClass);
    assert Trailer(" // Ok, negative  numbers");
    SplitsOf("1", " ", "-", "5", " // Ok, negative  numbers");
    NegativeLineText();
  }

  lemma NegativeLineText()
    ensures "1: -5 // Ok, negative  numbers" == "1" + ":" + " " + "-" + "5" + " // Ok, negative  numbers"
  {
    assert "1: -5" == "1" + ":" + " " + "-" + "5";
  }

  /** A line assembled from well-formed pieces splits into them. */
  lemma SplitsOf(a: string, w: string, d: string, v: string, rest: string)
    requires |a| > 0 && AllIn(a, DigitClass) && AllIn(w, SpaceClass) && AllIn(d, DashClass)
    requires |v| > 0 && AllIn(v, DigitClass) && Trailer(rest)
    ensures Splits(a + ":" + w + d + v + rest, a, w, d, v, rest)
  {
    GroupsIsTrailer(rest);
  }

  /** A line without an address is not a program line. */
  lemma MissingAddressLine()
    ensures ParseLine(": 31000 // Bad line") == Reject(BadLine)
  {
    assert Recognise(": 31000 // Bad line") == None;
  }

  /** An empty line is not a program line either. */
  lemma EmptyLine()
    ensures ParseLine("") == Reject(BadLine)
  {
    assert Recognise("") == None;
  }

  /** Letters after the digits of the value make the line bad. */
  lemma LettersInValueLine()
    ensures ParseLine("1: 31aasdf // Bad line") == Reject(BadLine)
  {
    var line := "1: 31aasdf // Bad line";
    assert line[0] == '1' && line[1] == ':' && line[2] == ' ' && line[3] == '3' && line[4] == '1' && line[5] == 'a';
    SpanUnique(line, DigitClass, 0, 1);
    SpanUnique(line, SpaceClass, 2, 3);
    SpanUnique(line, DashClass, 3, 3);
    SpanUnique(line, DigitClass, 3, 5);
    assert !Trailer(line[5..]);
  }

  /** A letter for an address makes the line bad, not the address. */
  lemma LetterAddressLine()
    ensures ParseLine("a: 31000 // Bad address, makes the line bad") == Reject(BadLine)
  {
    SpanUnique("a: 31000 // Bad address, makes the line bad", DigitClass, 0, 0);
  }

  /** An address past memory is rejected. */
  lemma AddressPastMemoryLine()
    ensures ParseLine("50: 31000 // Bad address") == Reject(BadAddr)
  {
    AddressPastMemorySplits();
    SmallDecimals();
    ParseLineClassified("50: 31000 // Bad address", "50", " ", "", "31000", " // Bad address");
  }

  lemma AddressPastMemorySplits()
    ensures Splits("50: 31000 // Bad address", "50", " ", "", "31000", " // Bad address")
  {
    assert AllIn("50", DigitClass) && AllIn("31000", DigitClass);
    assert Trailer(" // Bad address");
    SplitsOf("50", " ", "", "31000", " // Bad address");
    AddressPastMemoryText();
  }

  lemma AddressPastMemoryText()
    ensures "50: 31000 // Bad address" == "50" + ":" + " " + "" + "31000" + " // Bad address"
  {
  }

  /** Two dashes match the grammar but are not a number. */
  lemma DoubleDashLine()
    ensures ParseLine("1: --5") == Reject(BadValue)
  {
    var line := "1: --5";
    assert Splits(line, "1", " ", "--", "5", "") by {
      assert line == "1" + ":" + " " + "--" + "5" + "";
      assert AllIn("--", DashClass);
      assert Groups("") by { GroupsIsTrailer(""); }
    }
    ParseLineClassified(line, "1", " ", "--", "5", "");
  }

  /** A memory holding the sample program: word 0 is PUT 2, word 1 is JMP 0
      and word 2 holds 99103; the rest does not matter, since the program
      never reaches it. */
  predicate Echoes(m: seq<int>) {
    |m| == MemSize && m[0] == 31002 && m[1] == 5000 && m[2] == 99103
  }

  /** Loading the sample program from its text gives a memory that holds
      it, with no error. */
  lemma EchoProgramLoads()
    ensures var r := Load(["0: 31002", "1: 5000", "2: 99103"]);
      r.error == None && Echoes(r.mem)
  {
    var lines := ["0: 31002", "1: 5000", "2: 99103"];
    EchoPutLine();
    EchoJumpLine();
    EchoDataLine();
    var rs := ParseAll(lines);
    assert rs[0] == Assign(0, 31002) && rs[1] == Assign(1, 5000) && rs[2] == Assign(2, 99103);
    ApplyThree(rs, 31002, 5000, 99103);
  }

  /** The values of the digit strings of the sample program. */
  lemma EchoDecimals()
    ensures DecimalValue("31002") == 31002 && DecimalValue("5000") == 5000 && DecimalValue("99103") == 99103
    ensures DecimalValue("2") == 2
  {
    SmallDecimals();
    assert "3100"[..3] == "310" && "310"[..2] == "31" && "31"[..1] == "3" && "3"[..0] == "";
    assert DecimalValue("3100") == 3100;
    assert "31002"[..4] == "3100";
    assert "500"[..2] == "50" && DecimalValue("500") == 500;
    assert "5000"[..3] == "500";
    assert "9"[..0] == "" && "99"[..1] == "9" && "991"[..2] == "99" && "9910"[..3] == "991";
    assert DecimalValue("9910") == 9910;
    assert "99103"[..4] == "9910";
    assert "2"[..0] == "";
  }

  lemma EchoPutLine()
    ensures ParseLine("0: 31002") == Assign(0, 31002)
  {
    var line := "0: 31002";
    assert Splits(line, "0", " ", "", "31002", "") by {
      assert line == "0" + ":" + " " + "" + "31002" + "";
      assert AllIn("0", DigitClass) && AllIn("31002", DigitClass);
      assert Groups("") by { GroupsIsTrailer(""); }
    }
    EchoDecimals();
    SmallDecimals();
    ParseLineClassified(line, "0", " ", "", "31002", "");
  }

  lemma EchoJumpLine()
    ensures ParseLine("1: 5000") == Assign(1, 5000)
  {
    var line := "1: 5000";
    assert Splits(line, "1", " ", "", "5000", "") by {
      assert line == "1" + ":" + " " + "" + "5000" + "";
      assert AllIn("1", DigitClass) && AllIn("5000", DigitClass);
      assert Groups("") by { GroupsIsTrailer(""); }
    }
    EchoDecimals();
    SmallDecimals();
    ParseLineClassified(line, "1", " ", "", "5000", "");
  }

  lemma EchoDataLine()
    ensures ParseLine("2: 99103") == Assign(2, 99103)
  {
    var line := "2: 99103";
    assert Splits(line, "2", " ", "", "99103", "") by {
      assert line == "2" + ":" + " " + "" + "99103" + "";
      assert AllIn("2", DigitClass) && AllIn("99103", DigitClass);
      assert Groups("") by { GroupsIsTrailer(""); }
    }
    EchoDecimals();
    ParseLineClassified(line, "2", " ", "", "99103", "");
  }

  /** Three accepted lines for words 0, 1 and 2, applied in that order. */
  lemma ApplyThree(rs: seq<LineResult>, v0: int, v1: int, v2: int)
    requires |rs| == 3 && rs[0] == Assign(0, v0) && rs[1] == Assign(1, v1) && rs[2] == Assign(2, v2)
    requires Bounded(v0) && Bounded(v1) && Bounded(v2)
    ensures var r := Apply(Zeros(), rs);
      r.error == None && r.mem[0] == v0 && r.mem[1] == v1 && r.mem[2] == v2
  {
    var m1 := Zeros()[0 := v0];
    var m2 := m1[1 := v1];
    assert Apply(Zeros(), rs) == Apply(m1, rs[1..]);
    assert Apply(m1, rs[1..]) == Apply(m2, rs[2..]);
    assert Apply(m2, rs[2..]) == Apply(m2[2 := v2], rs[3..]);
    assert rs[3..] == [];
  }

  /** The first step of a run of the sample program from PUT 2: it outputs
      99103 and the run goes on from JMP 0. */
  lemma EchoPutStep(m: seq<int>, ac: int, mq: int, fuel: nat, read: nat -> int, k: nat)
    requires Echoes(m) && fuel > 0
    ensures var rest := RunFrom(Snapshot(m, 1, ac, mq, CPUok), fuel - 1, read, k);
      RunFrom(Snapshot(m, 0, ac, mq, CPUok), fuel, read, k)
        == RunResult(rest.final, [99103] + rest.outputs, rest.inputs, rest.steps + 1)
  {
    var s := Snapshot(m, 0, ac, mq, CPUok);
    assert Decode(m, 0) == (Instruction(PUT, 2), CPUok);
    assert Step(s, read(k)) == StepResult(s.(pc := 1), Some(99103)) && !ReadsInput(s);
    assert RunFrom(s, fuel, read, k) == StepThenRun(s, fuel - 1, read, k);
  }

  /** The first step of a run of the sample program from JMP 0: no output,
      and the run goes on from PUT 2. */
  lemma EchoJumpStep(m: seq<int>, ac: int, mq: int, fuel: nat, read: nat -> int, k: nat)
    requires Echoes(m) && fuel > 0
    ensures var rest := RunFrom(Snapshot(m, 0, ac, mq, CPUok), fuel - 1, read, k);
      RunFrom(Snapshot(m, 1, ac, mq, CPUok), fuel, read, k)
        == RunResult(rest.final, rest.outputs, rest.inputs, rest.steps + 1)
  {
    var s := Snapshot(m, 1, ac, mq, CPUok);
    assert Decode(m, 1) == (Instruction(JMP, 0), CPUok);
    assert Step(s, read(k)) == StepResult(s.(pc := 0), None) && !ReadsInput(s);
    assert RunFrom(s, fuel, read, k) == StepThenRun(s, fuel - 1, read, k);
    assert [] + RunFrom(s.(pc := 0), fuel - 1, read, k).outputs == RunFrom(s.(pc := 0), fuel - 1, read, k).outputs;
  }

  lemma Halves(n: nat)
    requires n > 0
    ensures n % 2 == 1 - (n - 1) % 2
    ensures (n + 1) / 2 == (n - 1) / 2 + 1 && n / 2 == (n - 1 + 1) / 2
  {
  }

  /** The sample program never halts: started at PUT 2, a run uses its
      whole budget, reads nothing, leaves memory and registers alone, and
      outputs 99103 on every other step, starting with the first. */
  lemma {:induction false} EchoFromPut(m: seq<int>, ac: int, mq: int, fuel: nat, read: nat -> int, k: nat)
    requires Echoes(m)
    ensures RunFrom(Snapshot(m, 0, ac, mq, CPUok), fuel, read, k)
      == RunResult(Snapshot(m, fuel % 2, ac, mq, CPUok), seq((fuel + 1) / 2, _ => 99103), k, fuel)
    decreases fuel, 1
  {
    if fuel > 0 {
      EchoPutStep(m, ac, mq, fuel, read, k);
      EchoFromJump(m, ac, mq, fuel - 1, read, k);
      Halves(fuel);
      MoreEchoes((fuel - 1) / 2);
    }
  }

  /** One more 99103 in front of a run of them. */
  lemma MoreEchoes(n: nat)
    ensures [99103] + seq(n, _ => 99103) == seq(n + 1, _ => 99103)
  {
    var more := [99103] + seq(n, _ => 99103);
    assert forall i | 0 <= i < |more| :: more[i] == 99103;
  }

  /** The same from JMP 0: the outputs come on the even steps. */
  lemma {:induction false} EchoFromJump(m: seq<int>, ac: int, mq: int, fuel: nat, read: nat -> int, k: nat)
    requires Echoes(m)
    ensures RunFrom(Snapshot(m, 1, ac, mq, CPUok), fuel, read, k)
      == RunResult(Snapshot(m, 1 - fuel % 2, ac, mq, CPUok), seq(fuel / 2, _ => 99103), k, fuel)
    decreases fuel, 0
  {
    if fuel > 0 {
      EchoJumpStep(m, ac, mq, fuel, read, k);
      EchoFromPut(m, ac, mq, fuel - 1, read, k);
      Halves(fuel);
    }
  }

  /** Loaded from its text onto a machine reset to PC 0, the sample program
      runs for its whole budget and prints 99103 on every other step. */
  lemma EchoProgramRuns(fuel: nat, read: nat -> int)
    ensures var m := Load(["0: 31002", "1: 5000", "2: 99103"]).mem;
      RunFrom(Snapshot(m, 0, 0, 0, CPUok), fuel, read, 0)
        == RunResult(Snapshot(m, fuel % 2, 0, 0, CPUok), seq((fuel + 1) / 2, _ => 99103), 0, fuel)
  {
    EchoProgramLoads();
    EchoFromPut(Load(["0: 31002", "1: 5000", "2: 99103"]).mem, 0, 0, fuel, read, 0);
  }
}
