/** `execute` of src/lib.rs and the four handlers it dispatches to. */
module Executor {
  import opened Faults
  import opened RegisterFile
  import opened Decoder
  import LittleEndian

  /** The state one instruction acts on: the register file and the data memory `dmem`. */
  datatype Machine = Machine(rf: Regfile, dmem: seq<bv8>)

  /** Bytes moved by a load: LB and LBU one, LH and LHU two, LW four; 0 for any other funct3. */
  function LoadWidth(funct3: bv32): nat
  {
    if funct3 == 0 || funct3 == 4 then 1
    else if funct3 == 1 || funct3 == 5 then 2
    else if funct3 == 2 then 4
    else 0
  }

  /** Bytes moved by a store: SB one, SH two, SW four; 0 for any other funct3. */
  function StoreWidth(funct3: bv32): nat
  {
    if funct3 == 0 then 1 else if funct3 == 1 then 2 else if funct3 == 2 then 4 else 0
  }

  /** The effective address: register rs1 plus the immediate, a wrapping 32-bit add of the raw,
      not sign-extended, immediate. */
  function Address(rf: Regfile, op: Operand): (a: nat)
    requires op.rs1 < 32
    ensures a < 0x1_0000_0000
  {
    (Reg(rf, op.rs1) + op.imm) as int
  }

  // Loads

  /** What a load reads from `dmem` at `addr`, in the order the library checks: funct3,
      then alignment, then the bounds of `dmem`. Every load zero-extends. */
  function LoadAt(dmem: seq<bv8>, addr: nat, op: Operand): (r: Result<bv32>)
    ensures var w := LoadWidth(op.funct3);
      && (w == 0 ==> r == Err(UnsupportedFunct(op.funct7, op.funct3)))
      && (w > 0 && addr % w != 0 ==> r == Err(AddressMisaligned(addr)))
      && (w > 0 && addr % w == 0 && addr + w > |dmem| ==> r == Err(AddressOutOfRange(addr)))
      && (w > 0 && addr % w == 0 && addr + w <= |dmem| ==>
            r == Ok(LittleEndian.Value(dmem[addr..addr + w])))
  {
    if op.funct3 == 0 then        // LB
      if addr < |dmem| then Ok(LoadByte(dmem, addr)) else Err(AddressOutOfRange(addr))
    else if op.funct3 == 1 then   // LH
      if addr % 2 != 0 then Err(AddressMisaligned(addr))
      else if addr + 1 < |dmem| then Ok(LoadHalf(dmem, addr)) else Err(AddressOutOfRange(addr))
    else if op.funct3 == 2 then   // LW
      if addr % 4 != 0 then Err(AddressMisaligned(addr))
      else if addr + 3 < |dmem| then Ok(LoadWord(dmem, addr)) else Err(AddressOutOfRange(addr))
    else if op.funct3 == 4 then   // LBU
      if addr < |dmem| then Ok(LoadByte(dmem, addr)) else Err(AddressOutOfRange(addr))
    else if op.funct3 == 5 then   // LHU
      if addr % 2 != 0 then Err(AddressMisaligned(addr))
      else if addr + 1 < |dmem| then Ok(LoadHalf(dmem, addr)) else Err(AddressOutOfRange(addr))
    else
      Err(UnsupportedFunct(op.funct7, op.funct3))
  }

  /** LB and LBU: the byte at `addr`, zero-extended. */
  function LoadByte(dmem: seq<bv8>, addr: nat): (v: bv32)
    requires addr < |dmem|
    ensures v == LittleEndian.Value(dmem[addr..addr + 1])
  {
    assert dmem[addr..addr + 1] == [dmem[addr]];
    LittleEndian.Value1(dmem[addr]);
    dmem[addr] as bv32
  }

  /** LH and LHU: the byte at `addr`, with the next byte OR-ed in eight bits higher. */
  function LoadHalf(dmem: seq<bv8>, addr: nat): (v: bv32)
    requires addr + 1 < |dmem|
    ensures v == LittleEndian.Value(dmem[addr..addr + 2])
  {
    assert dmem[addr..addr + 2] == [dmem[addr], dmem[addr + 1]];
    LittleEndian.Value2(dmem[addr], dmem[addr + 1]);
    var lo := dmem[addr] as bv32;
    lo | ((dmem[addr + 1] as bv32) << 8)
  }

  /** LW: the bytes at `addr` .. `addr + 3` OR-ed together, each eight bits above the one before. */
  function LoadWord(dmem: seq<bv8>, addr: nat): (v: bv32)
    requires addr + 3 < |dmem|
    ensures v == LittleEndian.Value(dmem[addr..addr + 4])
  {
    assert dmem[addr..addr + 4] == [dmem[addr], dmem[addr + 1], dmem[addr + 2], dmem[addr + 3]];
    LittleEndian.Value4(dmem[addr], dmem[addr + 1], dmem[addr + 2], dmem[addr + 3]);
    var b0 := dmem[addr] as bv32;
    var b01 := b0 | ((dmem[addr + 1] as bv32) << 8);
    var b012 := b01 | ((dmem[addr + 2] as bv32) << 16);
    b012 | ((dmem[addr + 3] as bv32) << 24)
  }

  /** `execute_load`: on success only register rd changes, to the value read; a fault writes nothing. */
  function ExecuteLoad(rf: Regfile, dmem: seq<bv8>, op: Operand): (r: Result<Regfile>)
    requires RegistersInRange(op)
    ensures var a, w := Address(rf, op), LoadWidth(op.funct3);
      && (w == 0 ==> r == Err(UnsupportedFunct(op.funct7, op.funct3)))
      && (w > 0 && a % w != 0 ==> r == Err(AddressMisaligned(a)))
      && (w > 0 && a % w == 0 && a + w > |dmem| ==> r == Err(AddressOutOfRange(a)))
      && (w > 0 && a % w == 0 && a + w <= |dmem| ==>
            r.Ok? && Reg(r.value, op.rd) == LittleEndian.Value(dmem[a..a + w])
            && r.value == SetReg(rf, op.rd, LittleEndian.Value(dmem[a..a + w])))
  {
    match LoadAt(dmem, Address(rf, op), op)
    case Ok(v) => Ok(SetReg(rf, op.rd, v))
    case Err(f) => Err(f)
  }

  // Stores

  /** What a store of `v` at `addr` leaves in `dmem`, checked in the same order as loads.
      Exactly the bytes `addr .. addr + width - 1` change, to the low bytes of `v`. */
  function StoreAt(dmem: seq<bv8>, addr: nat, v: bv32, op: Operand): (r: Result<seq<bv8>>)
    ensures var w := StoreWidth(op.funct3);
      && (w == 0 ==> r == Err(UnsupportedFunct(op.funct7, op.funct3)))
      && (w > 0 && addr % w != 0 ==> r == Err(AddressMisaligned(addr)))
      && (w > 0 && addr % w == 0 && addr + w > |dmem| ==> r == Err(AddressOutOfRange(addr)))
      && (w > 0 && addr % w == 0 && addr + w <= |dmem| ==>
            r == Ok(dmem[..addr] + LittleEndian.Bytes(v, w) + dmem[addr + w..]))
  {
    if op.funct3 == 0 then        // SB
      if addr < |dmem| then Ok(StoreByte(dmem, addr, v)) else Err(AddressOutOfRange(addr))
    else if op.funct3 == 1 then   // SH
      if addr % 2 != 0 then Err(AddressMisaligned(addr))
      else if addr + 1 < |dmem| then Ok(StoreHalf(dmem, addr, v)) else Err(AddressOutOfRange(addr))
    else if op.funct3 == 2 then   // SW
      if addr % 4 != 0 then Err(AddressMisaligned(addr))
      else if addr + 3 < |dmem| then Ok(StoreWord(dmem, addr, v)) else Err(AddressOutOfRange(addr))
    else
      Err(UnsupportedFunct(op.funct7, op.funct3))
  }

  /** SB: the byte at `addr` becomes the low byte of `v`. */
  function StoreByte(dmem: seq<bv8>, addr: nat, v: bv32): (m: seq<bv8>)
    requires addr < |dmem|
    ensures m == dmem[..addr] + LittleEndian.Bytes(v, 1) + dmem[addr + 1..]
  {
    LittleEndian.Bytes1(v);
    Splice1(dmem, addr, (v & 0xFF) as bv8);
    dmem[addr := (v & 0xFF) as bv8]
  }

  /** SH: the bytes at `addr` and `addr + 1` become the two low bytes of `v`, least significant first. */
  function StoreHalf(dmem: seq<bv8>, addr: nat, v: bv32): (m: seq<bv8>)
    requires addr + 1 < |dmem|
    ensures m == dmem[..addr] + LittleEndian.Bytes(v, 2) + dmem[addr + 2..]
  {
    LittleEndian.Bytes2(v);
    Splice2(dmem, addr, (v & 0xFF) as bv8, ((v >> 8) & 0xFF) as bv8);
    dmem[addr := (v & 0xFF) as bv8][addr + 1 := ((v >> 8) & 0xFF) as bv8]
  }

  /** The four byte writes of SW, least significant byte at `addr`. */
  function StoreWord(dmem: seq<bv8>, addr: nat, v: bv32): (m: seq<bv8>)
    requires addr + 3 < |dmem|
    ensures m == dmem[..addr] + LittleEndian.Bytes(v, 4) + dmem[addr + 4..]
  {
    LittleEndian.Bytes4(v);
    Splice4(dmem, addr, (v & 0xFF) as bv8, ((v >> 8) & 0xFF) as bv8,
            ((v >> 16) & 0xFF) as bv8, ((v >> 24) & 0xFF) as bv8);
    dmem[addr := (v & 0xFF) as bv8][addr + 1 := ((v >> 8) & 0xFF) as bv8]
        [addr + 2 := ((v >> 16) & 0xFF) as bv8][addr + 3 := ((v >> 24) & 0xFF) as bv8]
  }

  /** `execute_store`: register rs2 goes to memory at rs1 plus the immediate, or the store
      faults; only memory changes, the register file is not touched. */
  function ExecuteStore(rf: Regfile, dmem: seq<bv8>, op: Operand): (r: Result<seq<bv8>>)
    requires RegistersInRange(op)
    ensures var a, w := Address(rf, op), StoreWidth(op.funct3);
      && (w == 0 ==> r == Err(UnsupportedFunct(op.funct7, op.funct3)))
      && (w > 0 && a % w != 0 ==> r == Err(AddressMisaligned(a)))
      && (w > 0 && a % w == 0 && a + w > |dmem| ==> r == Err(AddressOutOfRange(a)))
      && (w > 0 && a % w == 0 && a + w <= |dmem| ==>
            r == Ok(dmem[..a] + LittleEndian.Bytes(Reg(rf, op.rs2), w) + dmem[a + w..]))
  {
    StoreAt(dmem, Address(rf, op), Reg(rf, op.rs2), op)
  }

  // Element updates as splices, on any element type.

  lemma Splice1<T>(s: seq<T>, i: nat, a: T)
    requires i < |s|
    ensures s[i := a] == s[..i] + [a] + s[i + 1..]
  {
  }

  lemma Splice2<T>(s: seq<T>, i: nat, a: T, b: T)
    requires i + 1 < |s|
    ensures s[i := a][i + 1 := b] == s[..i] + [a, b] + s[i + 2..]
  {
  }

  lemma Splice4<T>(s: seq<T>, i: nat, a: T, b: T, c: T, d: T)
    requires i + 3 < |s|
    ensures s[i := a][i + 1 := b][i + 2 := c][i + 3 := d] == s[..i] + [a, b, c, d] + s[i + 4..]
  {
  }

  // Arithmetic

  /** `execute_op_imm`: only ADDI (funct3 = 0), where register rd becomes rs1 plus the raw,
      not sign-extended immediate, a wrapping add; nothing else changes. */
  function ExecuteOpImm(rf: Regfile, op: Operand): (r: Result<Regfile>)
    requires RegistersInRange(op)
    ensures r.Ok? <==> op.funct3 == 0
    ensures r.Err? ==> r.fault == UnsupportedFunct(op.funct7, op.funct3)
    ensures r.Ok? ==> r.value.pc == rf.pc && Reg(r.value, op.rd) == Reg(rf, op.rs1) + op.imm
    ensures r.Ok? ==> forall j: bv32 :: j < 32 && j != op.rd ==> Reg(r.value, j) == Reg(rf, j)
  {
    if op.funct3 == 0 then Ok(SetReg(rf, op.rd, Reg(rf, op.rs1) + op.imm))
    else Err(UnsupportedFunct(op.funct7, op.funct3))
  }

  /** `execute_op`: only ADD, (funct7, funct3) = (0, 0), where register rd becomes rs1 plus
      rs2, a wrapping add; nothing else changes. */
  function ExecuteOp(rf: Regfile, op: Operand): (r: Result<Regfile>)
    requires RegistersInRange(op)
    ensures r.Ok? <==> op.funct7 == 0 && op.funct3 == 0
    ensures r.Err? ==> r.fault == UnsupportedFunct(op.funct7, op.funct3)
    ensures r.Ok? ==> r.value.pc == rf.pc && Reg(r.value, op.rd) == Reg(rf, op.rs1) + Reg(rf, op.rs2)
    ensures r.Ok? ==> forall j: bv32 :: j < 32 && j != op.rd ==> Reg(r.value, j) == Reg(rf, j)
  {
    if op.funct7 == 0 && op.funct3 == 0 then Ok(SetReg(rf, op.rd, Reg(rf, op.rs1) + Reg(rf, op.rs2)))
    else Err(UnsupportedFunct(op.funct7, op.funct3))
  }

  // Dispatch

  /** Kinds `execute` runs; every other kind panics in the library. */
  predicate Executable(k: Kind)
  {
    k == Load || k == Store || k == OpImm || k == Op
  }

  /** A LOAD step: the read at rs1 plus the immediate lands in register rd, or its fault is
      the step's fault; memory is kept. */
  function LoadStep(rf: Regfile, dmem: seq<bv8>, op: Operand): (r: Result<Machine>)
    requires RegistersInRange(op)
    ensures var v := LoadAt(dmem, Address(rf, op), op);
      && (v.Err? ==> r == Err(v.fault))
      && (v.Ok? ==> r == Ok(Machine(SetReg(rf, op.rd, v.value), dmem)))
    ensures r.Ok? ==> r.value.rf.pc == rf.pc && r.value.dmem == dmem
  {
    match ExecuteLoad(rf, dmem, op)
    case Ok(rf') => Ok(Machine(rf', dmem))
    case Err(f) => Err(f)
  }

  /** A STORE step: register rs2 is written to memory at rs1 plus the immediate, or the
      write's fault is the step's fault; the register file is kept and memory keeps its size. */
  function StoreStep(rf: Regfile, dmem: seq<bv8>, op: Operand): (r: Result<Machine>)
    requires RegistersInRange(op)
    ensures var m := StoreAt(dmem, Address(rf, op), Reg(rf, op.rs2), op);
      && (m.Err? ==> r == Err(m.fault))
      && (m.Ok? ==> r == Ok(Machine(rf, m.value)))
    ensures r.Ok? ==> r.value.rf == rf && |r.value.dmem| == |dmem|
  {
    match ExecuteStore(rf, dmem, op)
    case Ok(dmem') => Ok(Machine(rf, dmem'))
    case Err(f) => Err(f)
  }

  /** An OP-IMM step: `execute_op_imm` runs on the register file; its fault is the step's
      fault, and on success its register file is the machine's, with memory kept. */
  function OpImmStep(rf: Regfile, dmem: seq<bv8>, op: Operand): (r: Result<Machine>)
    requires RegistersInRange(op)
    ensures var s := ExecuteOpImm(rf, op);
      && (s.Err? ==> r == Err(s.fault))
      && (s.Ok? ==> r == Ok(Machine(s.value, dmem)))
    ensures r.Ok? ==> r.value.rf.pc == rf.pc && r.value.dmem == dmem
  {
    match ExecuteOpImm(rf, op)
    case Ok(rf') => Ok(Machine(rf', dmem))
    case Err(f) => Err(f)
  }

  /** An OP step: `execute_op` runs on the register file; its fault is the step's fault, and
      on success its register file is the machine's, with memory kept. */
  function OpStep(rf: Regfile, dmem: seq<bv8>, op: Operand): (r: Result<Machine>)
    requires RegistersInRange(op)
    ensures var s := ExecuteOp(rf, op);
      && (s.Err? ==> r == Err(s.fault))
      && (s.Ok? ==> r == Ok(Machine(s.value, dmem)))
    ensures r.Ok? ==> r.value.rf.pc == rf.pc && r.value.dmem == dmem
  {
    match ExecuteOp(rf, op)
    case Ok(rf') => Ok(Machine(rf', dmem))
    case Err(f) => Err(f)
  }

  /** `execute`. It never moves the pc and never resizes memory; a store leaves the register
      file alone and every other instruction leaves memory alone. */
  function Execute(rf: Regfile, dmem: seq<bv8>, op: Operand): (r: Result<Machine>)
    requires RegistersInRange(op)
    ensures !Executable(op.kind) ==> r == Err(UnsupportedOpcode(op.opcode))
    ensures r.Ok? ==> r.value.rf.pc == rf.pc && |r.value.dmem| == |dmem|
    ensures r.Ok? && op.kind == Store ==> r.value.rf == rf
    ensures r.Ok? && op.kind != Store ==> r.value.dmem == dmem
  {
    if op.kind == Load then LoadStep(rf, dmem, op)
    else if op.kind == Store then StoreStep(rf, dmem, op)
    else if op.kind == OpImm then OpImmStep(rf, dmem, op)
    else if op.kind == Op then OpStep(rf, dmem, op)
    else Err(UnsupportedOpcode(op.opcode))
  }
}
