/** The instruction decoder: a memory word is opcode * 1000 + target, the
    opcode is looked up in a fixed 17-entry table, and the verdict is one of
    the CPU states. */
module Decoder {
  import opened Arith

  /** Whether the machine may continue, or why it may not. */
  datatype CPUState = CPUok | CPUbadinst | CPUbadaddr | CPUdivzero | CPUhalt

  /** The 17 operations, plus UNK for a word whose opcode is not in the table. */
  datatype Mnemonic =
    | HLT | JEQ | JGT | JLT | JMP | JLE | JNE
    | LAC | PAC | LMQ | PMQ
    | ADD | SUB | MUL | DIV
    | GET | PUT
    | UNK

  /** A decoded word: the operation and its target address field. */
  datatype Instruction = Instruction(op: Mnemonic, addr: int)

  /** The opcode table: the operation an opcode names, UNK when the opcode
      has no entry. */
  function OpOf(code: int): Mnemonic {
    match code
    case 0 => HLT case 1 => JEQ case 2 => JGT case 3 => JLT
    case 5 => JMP case 6 => JLE case 7 => JNE
    case 10 => LAC case 11 => PAC case 12 => LMQ case 13 => PMQ
    case 20 => ADD case 21 => SUB case 22 => MUL case 23 => DIV
    case 30 => GET case 31 => PUT
    case _ => UNK
  }

  /** The opcode of an operation: the table read backwards. */
  function Opcode(op: Mnemonic): (code: int)
    requires op != UNK
    ensures OpOf(code) == op
  {
    match op
    case HLT => 0 case JEQ => 1 case JGT => 2 case JLT => 3
    case JMP => 5 case JLE => 6 case JNE => 7
    case LAC => 10 case PAC => 11 case LMQ => 12 case PMQ => 13
    case ADD => 20 case SUB => 21 case MUL => 22 case DIV => 23
    case GET => 30 case PUT => 31
  }

  /** The table has exactly the 17 opcodes 0-3, 5-7, 10-13, 20-23, 30 and 31,
      and it is injective: reading an entry backwards gives its opcode. */
  lemma OpsTable(code: int)
    ensures OpOf(code) != UNK <==> code in {0, 1, 2, 3, 5, 6, 7, 10, 11, 12, 13, 20, 21, 22, 23, 30, 31}
    ensures OpOf(code) != UNK ==> Opcode(OpOf(code)) == code
  {
  }

  /** The word that holds an instruction. */
  function Encode(op: Mnemonic, target: int): int
    requires op != UNK
  {
    Opcode(op) * 1000 + target
  }

  /** Decodes the word at `addr` (Go's getInstruction); reads memory only. */
  function Decode(mem: seq<int>, addr: int): (r: (Instruction, CPUState))
    requires |mem| == MemSize
    ensures r.1 == CPUok ==> r.0.op != UNK && InBounds(r.0.addr)
  {
    if !InBounds(addr) then (Instruction(UNK, 0), CPUbadinst)
    else
      var d := mem[addr];
      var code, target := TruncDiv(d, 1000), TruncMod(d, 1000);
      var op := OpOf(code);
      if op == UNK then (Instruction(UNK, target), CPUbadinst)
      else if !InBounds(target) then (Instruction(op, target), CPUbadaddr)
      else (Instruction(op, target), CPUok)
  }

  /** A word decodes as a runnable instruction exactly when the address is in
      memory and the word is the encoding of a known operation with an
      in-memory target. */
  lemma DecodeOk(mem: seq<int>, addr: int, op: Mnemonic, target: int)
    requires |mem| == MemSize
    ensures Decode(mem, addr) == (Instruction(op, target), CPUok)
        <==> InBounds(addr) && op != UNK && InBounds(target) && mem[addr] == Encode(op, target)
  {
    if InBounds(addr) && op != UNK && InBounds(target) && mem[addr] == Encode(op, target) {
      DecodeEncoded(mem, addr, op, target);
    }
    if Decode(mem, addr) == (Instruction(op, target), CPUok) {
      EncodedDecoded(mem, addr);
    }
  }

  lemma DecodeEncoded(mem: seq<int>, addr: int, op: Mnemonic, target: int)
    requires |mem| == MemSize && InBounds(addr) && op != UNK && InBounds(target)
    requires mem[addr] == Encode(op, target)
    ensures Decode(mem, addr) == (Instruction(op, target), CPUok)
  {
    TruncDivModUnique(mem[addr], 1000, Opcode(op), target);
  }

  lemma EncodedDecoded(mem: seq<int>, addr: int)
    requires |mem| == MemSize && Decode(mem, addr).1 == CPUok
    ensures InBounds(addr) && mem[addr] == Encode(Decode(mem, addr).0.op, Decode(mem, addr).0.addr)
  {
    var d := mem[addr];
    var code := TruncDiv(d, 1000);
    TruncDivMod(d, 1000);
    OpsTable(code);
  }

  /** A negative word is never a runnable instruction. With truncating
      division -5 splits into opcode 0 (HLT) and target -5, a bad address;
      other negative words have a negative opcode or target. */
  lemma DecodeNegative(mem: seq<int>, addr: int)
    requires |mem| == MemSize && InBounds(addr) && mem[addr] < 0
    ensures Decode(mem, addr).1 in {CPUbadinst, CPUbadaddr}
    ensures -1000 < mem[addr] ==> Decode(mem, addr) == (Instruction(HLT, mem[addr]), CPUbadaddr)
  {
    var d := mem[addr];
    TruncDivMod(d, 1000);
    if TruncMod(d, 1000) == 0 {
      assert TruncDiv(d, 1000) < 0;
    }
    if -1000 < d {
      TruncDivModUnique(d, 1000, 0, d);
    }
  }

  /** An address outside memory decodes as (UNK, 0) with a bad-instruction
      verdict; an unknown opcode still reports its target. */
  lemma DecodeRejects(mem: seq<int>, addr: int)
    requires |mem| == MemSize
    ensures !InBounds(addr) ==> Decode(mem, addr) == (Instruction(UNK, 0), CPUbadinst)
    ensures InBounds(addr) && OpOf(TruncDiv(mem[addr], 1000)) == UNK ==>
      Decode(mem, addr) == (Instruction(UNK, TruncMod(mem[addr], 1000)), CPUbadinst)
    ensures InBounds(addr) && OpOf(TruncDiv(mem[addr], 1000)) != UNK && !InBounds(TruncMod(mem[addr], 1000)) ==>
      Decode(mem, addr) == (Instruction(OpOf(TruncDiv(mem[addr], 1000)), TruncMod(mem[addr], 1000)), CPUbadaddr)
  {
  }
}
