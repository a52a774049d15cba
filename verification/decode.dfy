/** `decode` of src/lib.rs: from a 32-bit instruction word to an `Operand`. */
module Decoder {
  import opened Bits
  import opened Faults

  /** The eleven major opcodes the decoder recognises; the library names them by string. */
  datatype Kind = Lui | Auipc | Jal | Jalr | Branch | Load | Store | OpImm | Op | MiscMem | System

  /** The 7-bit major opcode of each kind (RISC-V Unprivileged ISA, chapter 2 and the opcode map).
      Each fits in bits 6:0, so `instr & 0x7F` can meet it, and ends in 0b11, the mark of a
      32-bit encoding. */
  function OpcodeOf(k: Kind): (op: bv32)
    ensures op < 0x80 && op & 3 == 3
  {
    match k
    case Lui => 0x37
    case Auipc => 0x17
    case Jal => 0x6F
    case Jalr => 0x67
    case Branch => 0x63
    case Load => 0x03
    case Store => 0x23
    case OpImm => 0x13
    case Op => 0x33
    case MiscMem => 0x0F
    case System => 0x73
  }

  /** A decoded instruction. Fields a kind does not use are zero; `imm` is not sign-extended. */
  datatype Operand = Operand(kind: Kind, opcode: bv32, rd: bv32, funct3: bv32,
                             rs1: bv32, rs2: bv32, funct7: bv32, imm: bv32)

  /** Register fields small enough to index the 32-entry register array. */
  predicate RegistersInRange(op: Operand)
  {
    op.rd < 32 && op.rs1 < 32 && op.rs2 < 32
  }

  /** Kinds for which the library fills no field but the opcode (`//TODO` stubs), LUI aside. */
  predicate IsStub(k: Kind)
  {
    k == Auipc || k == Jal || k == Jalr || k == Branch || k == MiscMem || k == System
  }

  /** `decode`. The opcode alone selects the kind; any other opcode panics. */
  function Decode(instr: bv32): (r: Result<Operand>)
    ensures r.Ok? <==> exists k: Kind :: OpcodeOf(k) == instr & 0x7F
    ensures r.Err? ==> r.fault == UnsupportedOpcode(instr & 0x7F)
    ensures r.Ok? ==> r.value.opcode == instr & 0x7F && OpcodeOf(r.value.kind) == r.value.opcode
    ensures r.Ok? ==> RegistersInRange(r.value) && r.value.funct3 < 8 && r.value.funct7 < 128
    ensures r.Ok? && IsStub(r.value.kind) ==>
      r.value == Operand(r.value.kind, instr & 0x7F, 0, 0, 0, 0, 0, 0)
  {
    var opcode := instr & 0x7F;
    if opcode == 0x37 then
      Ok(Operand(Lui, opcode, 0, 0, 0, 0, 0, Retrieve(instr, 12, 20)))
    else if opcode == 0x17 then
      Ok(Operand(Auipc, opcode, 0, 0, 0, 0, 0, 0))
    else if opcode == 0x6F then
      Ok(Operand(Jal, opcode, 0, 0, 0, 0, 0, 0))
    else if opcode == 0x67 then
      Ok(Operand(Jalr, opcode, 0, 0, 0, 0, 0, 0))
    else if opcode == 0x63 then
      Ok(Operand(Branch, opcode, 0, 0, 0, 0, 0, 0))
    else if opcode == 0x03 then
      Ok(Operand(Load, opcode, Retrieve(instr, 7, 5), Retrieve(instr, 12, 3),
                 Retrieve(instr, 15, 5), 0, 0, Retrieve(instr, 20, 12)))
    else if opcode == 0x23 then
      Ok(Operand(Store, opcode, 0, Retrieve(instr, 12, 3), Retrieve(instr, 15, 5),
                 Retrieve(instr, 20, 5), 0, (Retrieve(instr, 25, 7) << 5) | Retrieve(instr, 7, 5)))
    else if opcode == 0x13 then
      Ok(Operand(OpImm, opcode, Retrieve(instr, 7, 5), Retrieve(instr, 12, 3),
                 Retrieve(instr, 15, 5), 0, 0, Retrieve(instr, 20, 12)))
    else if opcode == 0x33 then
      Ok(Operand(Op, opcode, Retrieve(instr, 7, 5), Retrieve(instr, 12, 3), Retrieve(instr, 15, 5),
                 Retrieve(instr, 20, 5), Retrieve(instr, 25, 7), Retrieve(instr, 20, 12)))
    else if opcode == 0x0F then
      Ok(Operand(MiscMem, opcode, 0, 0, 0, 0, 0, 0))
    else if opcode == 0x73 then
      Ok(Operand(System, opcode, 0, 0, 0, 0, 0, 0))
    else
      Err(UnsupportedOpcode(opcode))
  }
}
