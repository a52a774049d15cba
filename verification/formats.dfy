/** The RV32I base instruction formats (RISC-V Unprivileged ISA, section 2.2, with the
    immediate layouts of section 2.3), used here as the encoder the decoder must invert. */
module Formats {

  /** I-type: imm[11:0] | rs1 | funct3 | rd | opcode. */
  function EncodeI(opcode: bv32, rd: bv32, funct3: bv32, rs1: bv32, imm: bv32): bv32
    requires opcode < 128 && rd < 32 && funct3 < 8 && rs1 < 32 && imm < 4096
  {
    (imm << 20) | (rs1 << 15) | (funct3 << 12) | (rd << 7) | opcode
  }

  /** S-type: imm[11:5] | rs2 | rs1 | funct3 | imm[4:0] | opcode. */
  function EncodeS(opcode: bv32, funct3: bv32, rs1: bv32, rs2: bv32, imm: bv32): bv32
    requires opcode < 128 && funct3 < 8 && rs1 < 32 && rs2 < 32 && imm < 4096
  {
    ((imm >> 5) << 25) | (rs2 << 20) | (rs1 << 15) | (funct3 << 12) | ((imm & 0x1F) << 7) | opcode
  }

  /** R-type: funct7 | rs2 | rs1 | funct3 | rd | opcode. */
  function EncodeR(opcode: bv32, rd: bv32, funct3: bv32, rs1: bv32, rs2: bv32, funct7: bv32): bv32
    requires opcode < 128 && rd < 32 && funct3 < 8 && rs1 < 32 && rs2 < 32 && funct7 < 128
  {
    (funct7 << 25) | (rs2 << 20) | (rs1 << 15) | (funct3 << 12) | (rd << 7) | opcode
  }

  /** U-type: imm[31:12] | rd | opcode, with the 20-bit field given unshifted. */
  function EncodeU(opcode: bv32, rd: bv32, imm20: bv32): bv32
    requires opcode < 128 && rd < 32 && imm20 < 0x10_0000
  {
    (imm20 << 12) | (rd << 7) | opcode
  }
}
