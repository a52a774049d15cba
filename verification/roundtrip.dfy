/** Decoding inverts the base instruction formats on every kind whose fields the decoder fills. */
module DecodeRoundTrip {
  import opened Bits
  import opened Faults
  import opened Formats
  import opened Decoder

  // Field extraction from an assembled word, on plain words.

  lemma FieldsOfI(opcode: bv32, rd: bv32, funct3: bv32, rs1: bv32, imm: bv32)
    requires opcode < 128 && rd < 32 && funct3 < 8 && rs1 < 32 && imm < 4096
    ensures var w := EncodeI(opcode, rd, funct3, rs1, imm);
      && w & 0x7F == opcode && Retrieve(w, 7, 5) == rd && Retrieve(w, 12, 3) == funct3
      && Retrieve(w, 15, 5) == rs1 && Retrieve(w, 20, 12) == imm
  {
  }

  lemma FieldsOfS(opcode: bv32, funct3: bv32, rs1: bv32, rs2: bv32, imm: bv32)
    requires opcode < 128 && funct3 < 8 && rs1 < 32 && rs2 < 32 && imm < 4096
    ensures var w := EncodeS(opcode, funct3, rs1, rs2, imm);
      && w & 0x7F == opcode && Retrieve(w, 12, 3) == funct3 && Retrieve(w, 15, 5) == rs1
      && Retrieve(w, 20, 5) == rs2 && (Retrieve(w, 25, 7) << 5) | Retrieve(w, 7, 5) == imm
  {
  }

  lemma FieldsOfR(opcode: bv32, rd: bv32, funct3: bv32, rs1: bv32, rs2: bv32, funct7: bv32)
    requires opcode < 128 && rd < 32 && funct3 < 8 && rs1 < 32 && rs2 < 32 && funct7 < 128
    ensures var w := EncodeR(opcode, rd, funct3, rs1, rs2, funct7);
      && w & 0x7F == opcode && Retrieve(w, 7, 5) == rd && Retrieve(w, 12, 3) == funct3
      && Retrieve(w, 15, 5) == rs1
  {
  }

  lemma UpperFieldsOfR(opcode: bv32, rd: bv32, funct3: bv32, rs1: bv32, rs2: bv32, funct7: bv32)
    requires opcode < 128 && rd < 32 && funct3 < 8 && rs1 < 32 && rs2 < 32 && funct7 < 128
    ensures var w := EncodeR(opcode, rd, funct3, rs1, rs2, funct7);
      && Retrieve(w, 20, 5) == rs2 && Retrieve(w, 25, 7) == funct7
      && Retrieve(w, 20, 12) == (funct7 << 5) | rs2
  {
  }

  lemma FieldsOfU(opcode: bv32, rd: bv32, imm20: bv32)
    requires opcode < 128 && rd < 32 && imm20 < 0x10_0000
    ensures var w := EncodeU(opcode, rd, imm20);
      w & 0x7F == opcode && Retrieve(w, 12, 20) == imm20
  {
  }

  /** LOAD and OP-IMM: an I-type word decodes to exactly its fields, with rs2 = funct7 = 0. */
  lemma DecodeEncodeI(k: Kind, rd: bv32, funct3: bv32, rs1: bv32, imm: bv32)
    requires k == Load || k == OpImm
    requires rd < 32 && funct3 < 8 && rs1 < 32 && imm < 4096
    ensures Decode(EncodeI(OpcodeOf(k), rd, funct3, rs1, imm))
         == Ok(Operand(k, OpcodeOf(k), rd, funct3, rs1, 0, 0, imm))
  {
    FieldsOfI(OpcodeOf(k), rd, funct3, rs1, imm);
  }

  /** LOAD and OP-IMM decoding loses nothing: re-encoding the fields gives the word back. */
  lemma EncodeDecodeI(instr: bv32)
    requires instr & 0x7F == OpcodeOf(Load) || instr & 0x7F == OpcodeOf(OpImm)
    ensures Decode(instr).Ok?
    ensures var op := Decode(instr).value;
      EncodeI(op.opcode, op.rd, op.funct3, op.rs1, op.imm) == instr
  {
    RebuildI(instr);
  }

  lemma RebuildI(w: bv32)
    ensures EncodeI(w & 0x7F, Retrieve(w, 7, 5), Retrieve(w, 12, 3), Retrieve(w, 15, 5),
                    Retrieve(w, 20, 12)) == w
  {
  }

  /** STORE: the two halves of the S-type immediate are put back together, rd = funct7 = 0. */
  lemma DecodeEncodeS(funct3: bv32, rs1: bv32, rs2: bv32, imm: bv32)
    requires funct3 < 8 && rs1 < 32 && rs2 < 32 && imm < 4096
    ensures Decode(EncodeS(OpcodeOf(Store), funct3, rs1, rs2, imm))
         == Ok(Operand(Store, OpcodeOf(Store), 0, funct3, rs1, rs2, 0, imm))
  {
    FieldsOfS(OpcodeOf(Store), funct3, rs1, rs2, imm);
  }

  /** STORE decoding loses nothing. */
  lemma EncodeDecodeS(instr: bv32)
    requires instr & 0x7F == OpcodeOf(Store)
    ensures Decode(instr).Ok?
    ensures var op := Decode(instr).value;
      EncodeS(op.opcode, op.funct3, op.rs1, op.rs2, op.imm) == instr
  {
    RebuildS(instr);
  }

  lemma RebuildS(w: bv32)
    ensures EncodeS(w & 0x7F, Retrieve(w, 12, 3), Retrieve(w, 15, 5), Retrieve(w, 20, 5),
                    (Retrieve(w, 25, 7) << 5) | Retrieve(w, 7, 5)) == w
  {
  }

  /** OP: every R-type field comes back; `imm` holds the raw bits 31..20, that is funct7:rs2. */
  lemma DecodeEncodeR(rd: bv32, funct3: bv32, rs1: bv32, rs2: bv32, funct7: bv32)
    requires rd < 32 && funct3 < 8 && rs1 < 32 && rs2 < 32 && funct7 < 128
    ensures Decode(EncodeR(OpcodeOf(Op), rd, funct3, rs1, rs2, funct7))
         == Ok(Operand(Op, OpcodeOf(Op), rd, funct3, rs1, rs2, funct7, (funct7 << 5) | rs2))
  {
    FieldsOfR(OpcodeOf(Op), rd, funct3, rs1, rs2, funct7);
    UpperFieldsOfR(OpcodeOf(Op), rd, funct3, rs1, rs2, funct7);
  }

  /** OP decoding loses nothing. */
  lemma EncodeDecodeR(instr: bv32)
    requires instr & 0x7F == OpcodeOf(Op)
    ensures Decode(instr).Ok?
    ensures var op := Decode(instr).value;
      EncodeR(op.opcode, op.rd, op.funct3, op.rs1, op.rs2, op.funct7) == instr
  {
    RebuildR(instr);
  }

  lemma RebuildR(w: bv32)
    ensures EncodeR(w & 0x7F, Retrieve(w, 7, 5), Retrieve(w, 12, 3), Retrieve(w, 15, 5),
                    Retrieve(w, 20, 5), Retrieve(w, 25, 7)) == w
  {
  }

  /** LUI as written: `imm` is the raw 20-bit field, not shifted into place, and rd is dropped
      (left zero), so two LUI words that differ only in rd decode alike. */
  lemma DecodeEncodeU(rd: bv32, imm20: bv32)
    requires rd < 32 && imm20 < 0x10_0000
    ensures Decode(EncodeU(OpcodeOf(Lui), rd, imm20))
         == Ok(Operand(Lui, OpcodeOf(Lui), 0, 0, 0, 0, 0, imm20))
  {
    FieldsOfU(OpcodeOf(Lui), rd, imm20);
  }

  /** The kind depends on the opcode bits only. */
  lemma KindFromOpcodeOnly(a: bv32, b: bv32)
    requires a & 0x7F == b & 0x7F
    ensures Decode(a).Ok? <==> Decode(b).Ok?
    ensures Decode(a).Ok? ==> Decode(a).value.kind == Decode(b).value.kind
  {
    if Decode(a).Ok? {
      OpcodeOfInjective(Decode(a).value.kind, Decode(b).value.kind);
    }
  }

  /** Distinct kinds have distinct opcodes. */
  lemma OpcodeOfInjective(k1: Kind, k2: Kind)
    ensures OpcodeOf(k1) == OpcodeOf(k2) ==> k1 == k2
  {
  }

  /** Decoding `addi x1, x0, 5`. */
  lemma DecodeAddiExample()
    ensures Decode(0x00500093) == Ok(Operand(OpImm, 0x13, 1, 0, 0, 0, 0, 5))
  {
    FieldsOfI(0x13, 1, 0, 0, 5);
  }
}
