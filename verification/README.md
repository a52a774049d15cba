# RV32I decode/execute core of riscv-simulator-rust, in Dafny

This project models `src/lib.rs` of the Rust RISC-V simulator: the register file
(`Regfile`), the bit-field extractor `retrieve`, the instruction decoder `decode` and
the executor `execute` with its four handlers for LOAD, STORE, OP-IMM and OP. It proves
properties of that model:

- decoding round-trips for the I, S and R formats, and the as-written behaviour of LUI;
- instruction fetch and the byte-wise loads and stores are little-endian;
- misaligned halfword and word accesses fault;
- a store touches only its own bytes, and a load of the same width reads the value back;
- ADDI and ADD wrap at 2^32 and change only `rd`;
- every panic of the library is an explicit fault.

Modules, one per component:

| file | module | models |
|---|---|---|
| `bits.dfy` | `Bits` | `retrieve` |
| `faults.dfy` | `Faults` | the panics, as the `Fault` values of a `Result` |
| `little_endian.dfy` | `LittleEndian` | reference meaning of the byte assembly and byte splitting |
| `regfile.dfy` | `RegisterFile` | `Regfile` and its methods |
| `formats.dfy` | `Formats` | the RV32I I/S/R/U encodings, used only to state round trips |
| `decode.dfy` | `Decoder` | `Operand` and `decode` |
| `roundtrip.dfy` | `DecodeRoundTrip` | encode/decode round trips |
| `execute.dfy` | `Executor` | `execute`, `execute_load`, `execute_store`, `execute_op_imm`, `execute_op` |
| `properties.dfy` | `ExecuteProperties` | relations between loads, stores and arithmetic, and concrete behaviours |

Conventions of the model:

- A `u32` is a `bv32` and a `u8` a `bv8`; `+` on words is the wrapping `bv32` add.
- The register array `[u32; 32]` is a length-32 `seq<bv32>`.
- Data and instruction memory (`Vec<u8>`) are `seq<bv8>`.
- A call that mutates `&mut Regfile` / `&mut Vec<u8>` is a pure function returning the new value inside a `Result`.
- `Err(f)` stands for a panic. A fault carries no state: the caller keeps what it had before the step.
- Fault kinds:
  - `panic!` on an unknown opcode is `UnsupportedOpcode`.
  - `panic!` on a funct3 or (funct7, funct3) is `UnsupportedFunct`.
  - An alignment `panic!` is `AddressMisaligned`.
  - An out-of-bounds `Vec` index (which also panics in Rust) is `AddressOutOfRange`.
- `decode`'s `Option` is never `None` without a panic first, so `Decode` returns `Result<Operand>`.
- The operand's `name` string is the datatype `Kind`.

Where the code and the usual description of RV32I differ, the model follows the code:

- LB and LH zero-extend exactly like LBU and LHU (the code carries a "support sign-extend" TODO).
  - `SignedLoadsAreUnsigned` shows this in general.
  - `LoadByteOfAllOnes` shows it on the byte 0xFF.
- The I-type and S-type immediates are not sign-extended before the add.
  - `addi x1, x0, -1` leaves 0xFFF in x1 (`AddiImmediateNotSignExtended`).
- `execute` never advances the pc. The driver does that.
- x0 is an ordinary register: writes to it stick (`ZeroRegisterIsWritable`).
- LUI's `imm` is the raw 20-bit field, not shifted left by 12, and its `rd` is dropped.
  - No LUI is executed: `execute` refuses it like the `//TODO` stub kinds (`DecodedButNotExecuted`).
- `Regfile::new` takes only the pc. No stack pointer is written into x2.

## Model

| member | source | states |
|---|---|---|
| `Bits.Retrieve` | src/lib.rs:56-60 | the extracted field is below 2^nbit |
| `Bits.RetrieveIsField` | src/lib.rs:56-60 | shifted back into place, the result is exactly bits shift .. shift+nbit-1 of x, as the doc comment promises |
| `Bits.FieldIsUnique` | src/lib.rs:56-60 | any nbit-bit value that sits at those bits of x is the extracted field |
| `RegisterFile.Reg` | src/lib.rs:100-101 | reading `x[i]` gives the one value that, written back into register i, leaves the register file as it was |
| `RegisterFile.New` | src/lib.rs:10-15 | a new register file starts at the given pc with every register zero |
| `RegisterFile.SetReg` | src/lib.rs:4-7 | writing register i sets it to v and leaves the pc and every other register as they were |
| `RegisterFile.SetRegIdempotent` | src/lib.rs:4-7 | writing back a register's own value is a no-op; of two writes to one register the later wins |
| `RegisterFile.GetNextInstr` | src/lib.rs:17-20 | fetch succeeds exactly when pc+3 is inside the image; then it is the little-endian value of the four bytes at pc, otherwise an out-of-range fault at pc |
| `RegisterFile.FetchAt` | src/lib.rs:17-20 | the same fetch at a natural-number index, with its in-range, fault and little-endian clauses |
| `RegisterFile.FetchIsLittleEndian` | src/lib.rs:19 | the library's shift-and-OR of imem[pc..pc+3] is the little-endian value of those bytes |
| `RegisterFile.FetchedBytes` | src/lib.rs:17-20 | splitting a fetched word back into bytes gives the four image bytes at pc |
| `RegisterFile.IncPc` | src/lib.rs:22-24 | the pc moves forward by 4 modulo 2^32, registers unchanged, word alignment kept |
| `RegisterFile.SetPc` | src/lib.rs:26-28 | after set_pc, get_pc reads the new pc and registers are unchanged |
| `RegisterFile.GetPc` | src/lib.rs:30-32 | get_pc returns the one value that, stored back as the pc, leaves the register file as it was |
| `RegisterFile.SetPcIdempotent` | src/lib.rs:26-32 | setting the pc to get_pc changes nothing; a later set_pc overrides an earlier one |
| `LittleEndian.Bytes` | src/lib.rs:148-156 | splitting a word into n bytes yields n bytes |
| `LittleEndian.ValueOfBytes` | src/lib.rs:148-156 | reading back the n low bytes of a word gives the word's n low bytes and clears the rest |
| `LittleEndian.ValueBound` | src/lib.rs:105-129 | an n-byte value never sets a bit above bit 8n-1 |
| `LittleEndian.BytesOfValue` | src/lib.rs:113-121 | splitting the value of up to four bytes gives the same bytes back |
| `LittleEndian.WordRoundTrip` | src/lib.rs:113-156 | a word split into four bytes and reassembled is the same word |
| `LittleEndian.Value1` | src/lib.rs:105 | one byte reads as its zero-extension |
| `LittleEndian.Value2` | src/lib.rs:110-111 | `b0 OR (b1 << 8)` is the little-endian value of two bytes |
| `LittleEndian.Value4` | src/lib.rs:117-120 | or-ing the four bytes into place, the lowest byte lowest, gives their little-endian value; the LW load here and the fetch at src/lib.rs:19 both build a word this way |
| `LittleEndian.Bytes1` | src/lib.rs:140 | `w & 0xFF` is the one-byte little-endian split |
| `LittleEndian.Bytes2` | src/lib.rs:145-146 | the two SH bytes are the two-byte little-endian split |
| `LittleEndian.Bytes4` | src/lib.rs:152-155 | the four SW bytes are the four-byte little-endian split |
| `Decoder.OpcodeOf` | src/lib.rs:64-81 | each of the eleven major opcodes fits in the seven bits `instr & 0b1111111` keeps and ends in 0b11 |
| `Decoder.Decode` | src/lib.rs:62-87 | decode succeeds exactly when the low 7 bits are one of the eleven opcodes, and otherwise faults with those bits; on success the opcode field and the kind agree with them, the register fields are below 32, funct3 below 8, funct7 below 128, and stub kinds carry only the opcode |
| `DecodeRoundTrip.DecodeEncodeI` | src/lib.rs:74-76 | a LOAD or OP-IMM word built from rd, funct3, rs1 and a 12-bit imm decodes to exactly those fields |
| `DecodeRoundTrip.EncodeDecodeI` | src/lib.rs:74-76 | re-encoding a decoded LOAD or OP-IMM operand gives the original word |
| `DecodeRoundTrip.DecodeEncodeS` | src/lib.rs:75 | a STORE word decodes to its funct3, rs1 and rs2 and to its split 12-bit immediate put back together |
| `DecodeRoundTrip.EncodeDecodeS` | src/lib.rs:75 | re-encoding a decoded STORE operand gives the original word |
| `DecodeRoundTrip.DecodeEncodeR` | src/lib.rs:77 | an OP word decodes to its rd, funct3, rs1, rs2 and funct7; imm holds bits 31..20 |
| `DecodeRoundTrip.EncodeDecodeR` | src/lib.rs:77 | re-encoding a decoded OP operand gives the original word |
| `DecodeRoundTrip.DecodeEncodeU` | src/lib.rs:65 | a LUI word decodes with rd dropped and imm the unshifted 20-bit field |
| `DecodeRoundTrip.KindFromOpcodeOnly` | src/lib.rs:63-86 | two words with the same low 7 bits either both fail or both decode to the same kind |
| `DecodeRoundTrip.OpcodeOfInjective` | src/lib.rs:64-81 | no two kinds share an opcode |
| `DecodeRoundTrip.DecodeAddiExample` | src/lib.rs:76 | 0x00500093 decodes to ADDI with rd 1, rs1 0 and imm 5 |
| `Executor.Address` | src/lib.rs:101 | the effective address `(x[rs1] + imm) as usize` (also line 136) is a `u32` sum, so it stays below 2^32 |
| `Executor.LoadAt` | src/lib.rs:102-131 | an unsupported funct3 faults; otherwise a misaligned LH/LHU/LW faults; otherwise an access past memory faults; otherwise the result is the zero-extended little-endian value of the 1, 2 or 4 bytes at the address |
| `Executor.LoadByte` | src/lib.rs:105 | the LB/LBU read is the one-byte value at the address |
| `Executor.LoadHalf` | src/lib.rs:110-111 | the LH/LHU read is the two-byte little-endian value at the address |
| `Executor.LoadWord` | src/lib.rs:117-120 | the LW read is the four-byte little-endian value at the address |
| `Executor.ExecuteLoad` | src/lib.rs:99-132 | an unknown funct3 faults; a misaligned address x[rs1] + imm faults as misaligned; an access past memory faults as out of range; otherwise rd holds the little-endian value of the bytes at that address, zero-extended, and no other register changes |
| `Executor.StoreAt` | src/lib.rs:137-158 | the same fault order as loads; otherwise memory is the old memory with the 1, 2 or 4 low bytes of the value spliced in at the address |
| `Executor.StoreByte` | src/lib.rs:140 | SB replaces the byte at the address by the value's low byte |
| `Executor.StoreHalf` | src/lib.rs:145-146 | SH replaces two bytes at the address by the value's two low bytes, least significant first |
| `Executor.StoreWord` | src/lib.rs:152-155 | SW replaces four bytes at the address by the value's bytes, least significant first |
| `Executor.ExecuteStore` | src/lib.rs:134-159 | at the address x[rs1] + imm: an unsupported funct3 faults; otherwise a misaligned SH/SW faults; otherwise a store past memory faults; otherwise memory is the old memory with the 1, 2 or 4 low bytes of x[rs2] spliced in at the address, least significant first; only memory is returned, so the register file cannot change |
| `Executor.ExecuteOpImm` | src/lib.rs:161-167 | only funct3 0 (ADDI) succeeds; x[rd] becomes x[rs1] + imm modulo 2^32 and nothing else changes; other funct3 values fault |
| `Executor.ExecuteOp` | src/lib.rs:169-175 | only (funct7, funct3) = (0, 0) (ADD) succeeds; x[rd] becomes x[rs1] + x[rs2] modulo 2^32 and nothing else changes; others fault |
| `Executor.LoadStep` | src/lib.rs:91 | a LOAD step faults exactly when the read at x[rs1] + imm does, with its fault; otherwise the value read is written to rd, and memory and the pc are kept |
| `Executor.StoreStep` | src/lib.rs:92 | a STORE step faults exactly when the write of x[rs2] at x[rs1] + imm does, with its fault; otherwise memory becomes the written memory and the register file, pc included, is kept |
| `Executor.OpImmStep` | src/lib.rs:93 | an OP-IMM step faults exactly when `execute_op_imm` does, with its fault; otherwise the machine's register file is the one `execute_op_imm` produces, with memory and the pc kept |
| `Executor.OpStep` | src/lib.rs:94 | an OP step faults exactly when `execute_op` does, with its fault; otherwise the machine's register file is the one `execute_op` produces, with memory and the pc kept |
| `ExecuteProperties.ExecuteRunsLoad` | src/lib.rs:91 | `execute` on a LOAD returns the read's fault, or the machine with the value read in rd and memory unchanged |
| `ExecuteProperties.ExecuteRunsStore` | src/lib.rs:92 | `execute` on a STORE returns the write's fault, or the machine with the same registers and the written memory |
| `ExecuteProperties.ExecuteRunsOpImm` | src/lib.rs:93 | `execute` on an OP-IMM returns `execute_op_imm`'s fault, or its register file with memory unchanged |
| `ExecuteProperties.ExecuteRunsOp` | src/lib.rs:94 | `execute` on an OP returns `execute_op`'s fault, or its register file with memory unchanged |
| `Executor.Execute` | src/lib.rs:89-97 | kinds other than LOAD, STORE, OP-IMM and OP fault with their opcode; a successful step keeps the pc and the memory size, a store keeps the register file, and every other kind keeps memory |
| `ExecuteProperties.MisalignedLoadFaults` | src/lib.rs:106-129 | LH, LHU and LW at an address their width does not divide fault as misaligned |
| `ExecuteProperties.MisalignedStoreFaults` | src/lib.rs:141-156 | SH and SW at an address their width does not divide fault as misaligned |
| `ExecuteProperties.StoreFrame` | src/lib.rs:134-159 | a successful store keeps the memory size, writes the value's bytes in order at the address and leaves every other byte alone |
| `ExecuteProperties.StoreByteChangesOneByte` | src/lib.rs:140 | SB in range is the update of exactly one byte |
| `ExecuteProperties.StoreThenLoad` | src/lib.rs:99-159 | loading at a stored address with the store's width reads back the stored value cut to that width |
| `ExecuteProperties.StoreWordThenLoadWord` | src/lib.rs:113-156 | SW to an aligned in-range address succeeds, and LW from that address then puts exactly the stored register value in rd |
| `ExecuteProperties.DisjointStoreInvisible` | src/lib.rs:99-159 | a load that does not overlap a store gives the same result, fault or value, before and after it |
| `ExecuteProperties.LoadSeesOnlyItsBytes` | src/lib.rs:99-132 | a load depends only on the memory size and the bytes it covers |
| `ExecuteProperties.LoadZeroExtends` | src/lib.rs:103-129 | every successful load leaves the bits above its width clear |
| `ExecuteProperties.SignedLoadsAreUnsigned` | src/lib.rs:105-129 | LB behaves as LBU and LH as LHU on every memory and address |
| `ExecuteProperties.LoadByteOfAllOnes` | src/lib.rs:105 | LB of the byte 0xFF puts 0xFF in rd |
| `ExecuteProperties.AddiImmediateNotSignExtended` | src/lib.rs:164 | `addi x1, x0, -1` decodes with imm 0xFFF and sets x1 to 0xFFF |
| `ExecuteProperties.AddressWraps` | src/lib.rs:101 | x1 = 0xFFFF_FFFF plus the immediate 4 addresses byte 3: the address add wraps |
| `ExecuteProperties.AddWraps` | src/lib.rs:172 | ADD of 0xFFFF_FFFF and 1 succeeds with 0 |
| `ExecuteProperties.ZeroRegisterIsWritable` | src/lib.rs:164 | `addi x0, x0, 5` leaves 5 in x0 |
| `ExecuteProperties.DecodedButNotExecuted` | src/lib.rs:89-96 | any word that decodes to LUI or a stub kind makes execute fault with the decoded opcode |
| `ExecuteProperties.FetchDecodeExecuteAddi` | src/lib.rs:17-97 | fetching, decoding and executing `addi x1, x0, 5` at pc 0 sets x1 to 5 and leaves the pc at 0 |

## Left out

- `src/main.rs`, the driver loop, is not part of this model. It reads the image from disk, prints a trace, advances the pc and stops on `-1`, which `execute` never returns.
- The `Debug` output and the `name` string of `Operand` are left out. The kind is a datatype instead.
- RV32I semantics the library does not implement are left out. These are AUIPC, JAL, JALR, BRANCH, MISC-MEM, SYSTEM and LUI execution, and every OP-IMM and OP instruction but ADDI and ADD. `execute` refuses those kinds, so the model does too.
- Executor.ExecuteOpImm: Rust's `+` on `u32` panics on overflow in a debug build and wraps in a release build. The model is the release build. The same holds for `Executor.ExecuteOp`, `Executor.Address` and `RegisterFile.IncPc`.
- Bits.Retrieve: requires shift and nbit below 32. A larger shift panics in a debug build, and `decode` only passes constants below 32.
- Executor.Execute: requires register fields below 32. Rust panics on a larger index, and `decode` never produces one (`Decoder.Decode` ensures it).
- Executor.ExecuteLoad: a load or store whose first byte is in memory but whose last is not changes state before the index panics. LH and LHU write the first byte to rd (src/lib.rs:110, 127). LW writes one, two or three bytes to rd (src/lib.rs:117-120). SH writes the first byte to memory (src/lib.rs:145), and SW one, two or three bytes (src/lib.rs:152-154). The model reports only the fault, because a panic ends the program and the partial write cannot be observed. The same holds for `Executor.ExecuteStore`.
- The addresses in `AddressOutOfRange` and `AddressMisaligned` are the effective address (pc for a fetch). The panic messages are not modelled.
- Executor.Address: the contract states only the bound below 2^32. It does not state that the address equals (x[rs1] + imm) mod 2^32 as integers, because the verifier could not relate the `bv32` sum to integer arithmetic within its resource limit. `ExecuteProperties.AddressWraps` shows the wrap on a concrete input.
- Commutativity of ADD is not stated, because it is a fact about `bv32` addition and says nothing about the library.
