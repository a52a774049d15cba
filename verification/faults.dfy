/** The ways a fetch, decode or execute step can fail. In the Rust library each of
    these is a panic that ends the process; here each is a value the caller inspects. */
module Faults {

  datatype Fault =
    | UnsupportedOpcode(opcode: bv32)            // opcode outside the table, or a kind `execute` does not run
    | UnsupportedFunct(funct7: bv32, funct3: bv32) // known opcode, unimplemented funct3 / (funct7, funct3)
    | AddressMisaligned(addr: nat)               // halfword or word access off its natural boundary
    | AddressOutOfRange(addr: nat)               // access that runs past the end of a byte vector

  /** Either the value a step produces, or the fault that stopped it. A fault carries
      no state: the caller keeps the state it had before the step. */
  datatype Result<+T> = Ok(value: T) | Err(fault: Fault)
}
