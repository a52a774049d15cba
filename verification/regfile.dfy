/** The register file `Regfile` of src/lib.rs: 32 word registers and a program counter. */
module RegisterFile {
  import opened Faults
  import LittleEndian

  /** The registers x0..x31; the library keeps them in a fixed array of 32 unsigned words. */
  type Registers = x: seq<bv32> | |x| == 32 witness seq(32, _ => 0 as bv32)

  datatype Regfile = Regfile(x: Registers, pc: bv32)

  /** `Regfile::new(pc)`: every register zero, execution starting at `pc`. */
  function New(pc: bv32): (rf: Regfile)
    ensures rf.pc == pc
    ensures forall i :: 0 <= i < 32 ==> rf.x[i] == 0
  {
    Regfile(seq(32, _ => 0), pc)
  }

  /** Register `i`: the one value that written back into slot `i` leaves the
      register file as it was. */
  function Reg(rf: Regfile, i: bv32): (v: bv32)
    requires i < 32
    ensures rf.(x := rf.x[i := v]) == rf
  {
    rf.x[i]
  }

  /** Writing register `i`: it becomes `v`; the other registers and the pc stay. */
  function SetReg(rf: Regfile, i: bv32, v: bv32): (r: Regfile)
    requires i < 32
    ensures r.pc == rf.pc
    ensures Reg(r, i) == v
    ensures forall j: bv32 :: j < 32 && j != i ==> Reg(r, j) == Reg(rf, j)
  {
    rf.(x := rf.x[i := v])
  }

  /** Writing a register's own value back changes nothing; a second write to it wins. */
  lemma SetRegIdempotent(rf: Regfile, i: bv32, a: bv32, b: bv32)
    requires i < 32
    ensures SetReg(rf, i, Reg(rf, i)) == rf
    ensures SetReg(SetReg(rf, i, a), i, b) == SetReg(rf, i, b)
  {
  }

  /** `get_next_instr`: the instruction word at `pc` in the image `imem`. The four bytes are
      read at `pc` (least significant) through `pc + 3`; indexing past the image panics. */
  function GetNextInstr(rf: Regfile, imem: seq<bv8>): (r: Result<bv32>)
    ensures r.Ok? <==> rf.pc as int + 3 < |imem|
    ensures r.Err? ==> r.fault == AddressOutOfRange(rf.pc as int)
    ensures r.Ok? ==> r.value == LittleEndian.Value(imem[rf.pc as int..rf.pc as int + 4])
  {
    FetchAt(imem, rf.pc as int)
  }

  /** The word fetch of `get_next_instr` at the index `pc`, written as the library writes it. */
  function FetchAt(imem: seq<bv8>, pc: nat): (r: Result<bv32>)
    ensures r.Ok? <==> pc + 3 < |imem|
    ensures r.Err? ==> r.fault == AddressOutOfRange(pc)
    ensures r.Ok? ==> r.value == LittleEndian.Value(imem[pc..pc + 4])
  {
    if pc + 3 < |imem| then
      FetchIsLittleEndian(imem, pc);
      Ok(((imem[pc + 3] as bv32) << 24) | ((imem[pc + 2] as bv32) << 16)
         | ((imem[pc + 1] as bv32) << 8) | (imem[pc] as bv32))
    else
      Err(AddressOutOfRange(pc))
  }

  lemma FetchIsLittleEndian(imem: seq<bv8>, pc: nat)
    requires pc + 3 < |imem|
    ensures LittleEndian.Value(imem[pc..pc + 4]) ==
      ((imem[pc + 3] as bv32) << 24) | ((imem[pc + 2] as bv32) << 16)
      | ((imem[pc + 1] as bv32) << 8) | (imem[pc] as bv32)
  {
    assert imem[pc..pc + 4] == [imem[pc], imem[pc + 1], imem[pc + 2], imem[pc + 3]];
    LittleEndian.Value4(imem[pc], imem[pc + 1], imem[pc + 2], imem[pc + 3]);
  }

  /** The four bytes of a fetched word are the four bytes of the image at `pc`. */
  lemma FetchedBytes(rf: Regfile, imem: seq<bv8>)
    requires rf.pc as int + 3 < |imem|
    ensures LittleEndian.Bytes(GetNextInstr(rf, imem).value, 4) == imem[rf.pc as int..rf.pc as int + 4]
  {
    LittleEndian.BytesOfValue(imem[rf.pc as int..rf.pc as int + 4]);
  }

  /** `inc_pc`: one instruction forward. A `u32` add, wrapping at 2^32 (see README). */
  function IncPc(rf: Regfile): (r: Regfile)
    ensures r.x == rf.x
    ensures r.pc - 4 == rf.pc
    ensures rf.pc % 4 == 0 ==> r.pc % 4 == 0
  {
    rf.(pc := rf.pc + 4)
  }

  /** `set_pc`: jump to `pc`, registers untouched. */
  function SetPc(rf: Regfile, pc: bv32): (r: Regfile)
    ensures r.x == rf.x && GetPc(r) == pc
  {
    rf.(pc := pc)
  }

  /** `get_pc`: the one value that stored back as the pc leaves the register file as it was. */
  function GetPc(rf: Regfile): (p: bv32)
    ensures rf.(pc := p) == rf
  {
    rf.pc
  }

  /** Setting the pc to where it already is changes nothing; a later set overrides an earlier one. */
  lemma SetPcIdempotent(rf: Regfile, a: bv32, b: bv32)
    ensures SetPc(rf, GetPc(rf)) == rf
    ensures SetPc(SetPc(rf, a), b) == SetPc(rf, b)
  {
  }
}
