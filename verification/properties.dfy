/** What one executed instruction promises beyond its own contract: stores and loads agree,
    a store touches only its own bytes, and the library's departures from RV32I
    (zero-extending loads, raw immediates, a writable x0) shown on concrete inputs. */
module ExecuteProperties {
  import opened Faults
  import opened RegisterFile
  import opened Decoder
  import opened Executor
  import LittleEndian

  // Dispatch

  /** `execute` on a LOAD reads at rs1 plus the immediate: a fault of the read is the
      instruction's fault, and a value read lands in register rd with memory kept. */
  lemma ExecuteRunsLoad(rf: Regfile, dmem: seq<bv8>, op: Operand)
    requires RegistersInRange(op) && op.kind == Load
    ensures var v := LoadAt(dmem, Address(rf, op), op);
      && (v.Err? ==> Execute(rf, dmem, op) == Err(v.fault))
      && (v.Ok? ==> Execute(rf, dmem, op) == Ok(Machine(SetReg(rf, op.rd, v.value), dmem)))
  {
  }

  /** `execute` on a STORE writes register rs2 at rs1 plus the immediate: a fault of the write
      is the instruction's fault, and on success the registers stay and memory is the written one. */
  lemma ExecuteRunsStore(rf: Regfile, dmem: seq<bv8>, op: Operand)
    requires RegistersInRange(op) && op.kind == Store
    ensures var m := StoreAt(dmem, Address(rf, op), Reg(rf, op.rs2), op);
      && (m.Err? ==> Execute(rf, dmem, op) == Err(m.fault))
      && (m.Ok? ==> Execute(rf, dmem, op) == Ok(Machine(rf, m.value)))
  {
  }

  /** `execute` on an OP-IMM runs `execute_op_imm` on the registers: its fault is the
      instruction's fault, and its register file on success is the machine's, with memory kept. */
  lemma ExecuteRunsOpImm(rf: Regfile, dmem: seq<bv8>, op: Operand)
    requires RegistersInRange(op) && op.kind == OpImm
    ensures var s := ExecuteOpImm(rf, op);
      && (s.Err? ==> Execute(rf, dmem, op) == Err(s.fault))
      && (s.Ok? ==> Execute(rf, dmem, op) == Ok(Machine(s.value, dmem)))
  {
  }

  /** `execute` on an OP runs `execute_op` on the registers: its fault is the instruction's
      fault, and its register file on success is the machine's, with memory kept. */
  lemma ExecuteRunsOp(rf: Regfile, dmem: seq<bv8>, op: Operand)
    requires RegistersInRange(op) && op.kind == Op
    ensures var s := ExecuteOp(rf, op);
      && (s.Err? ==> Execute(rf, dmem, op) == Err(s.fault))
      && (s.Ok? ==> Execute(rf, dmem, op) == Ok(Machine(s.value, dmem)))
  {
  }

  // Alignment

  /** LH, LHU and LW at an address their width does not divide fault, whatever memory holds. */
  lemma MisalignedLoadFaults(rf: Regfile, dmem: seq<bv8>, op: Operand)
    requires RegistersInRange(op) && op.kind == Load
    requires LoadWidth(op.funct3) > 0 && Address(rf, op) % LoadWidth(op.funct3) != 0
    ensures Execute(rf, dmem, op) == Err(AddressMisaligned(Address(rf, op)))
  {
  }

  /** SH and SW at an address their width does not divide fault, whatever memory holds. */
  lemma MisalignedStoreFaults(rf: Regfile, dmem: seq<bv8>, op: Operand)
    requires RegistersInRange(op) && op.kind == Store
    requires StoreWidth(op.funct3) > 0 && Address(rf, op) % StoreWidth(op.funct3) != 0
    ensures Execute(rf, dmem, op) == Err(AddressMisaligned(Address(rf, op)))
  {
  }

  // Stores

  /** A store keeps the size of memory, writes the low bytes of the value, least significant
      first, at `addr`, and leaves every other byte as it was. */
  lemma StoreFrame(dmem: seq<bv8>, addr: nat, v: bv32, op: Operand)
    requires StoreAt(dmem, addr, v, op).Ok?
    ensures var m := StoreAt(dmem, addr, v, op).value;
      var w := StoreWidth(op.funct3);
      && |m| == |dmem|
      && (forall k :: 0 <= k < w ==> m[addr + k] == LittleEndian.Bytes(v, w)[k])
      && (forall k :: 0 <= k < |dmem| && !(addr <= k < addr + w) ==> m[k] == dmem[k])
  {
    var w := StoreWidth(op.funct3);
    var bs := LittleEndian.Bytes(v, w);
    var m := StoreAt(dmem, addr, v, op).value;
    assert m == dmem[..addr] + bs + dmem[addr + w..];
    forall k | 0 <= k < w
      ensures m[addr + k] == bs[k]
    {
      assert m[addr + k] == (dmem[..addr] + bs)[addr + k];
    }
  }

  /** SB: exactly one byte of memory changes, to the low byte of the value. */
  lemma StoreByteChangesOneByte(dmem: seq<bv8>, addr: nat, v: bv32, op: Operand)
    requires op.funct3 == 0 && addr < |dmem|
    ensures StoreAt(dmem, addr, v, op) == Ok(dmem[addr := LittleEndian.LowByte(v)])
  {
    LittleEndian.Bytes1(v);
    Splice1(dmem, addr, LittleEndian.LowByte(v));
  }

  // Stores seen by loads

  /** A load of the width of a store, from the address it wrote, reads back the stored value cut
      to that width (every load zero-extends). */
  lemma StoreThenLoad(dmem: seq<bv8>, addr: nat, v: bv32, st: Operand, ld: Operand)
    requires StoreAt(dmem, addr, v, st).Ok?
    requires LoadWidth(ld.funct3) == StoreWidth(st.funct3)
    ensures var w := StoreWidth(st.funct3);
      LoadAt(StoreAt(dmem, addr, v, st).value, addr, ld) == Ok(v & LittleEndian.LowMask(w))
  {
    var w := StoreWidth(st.funct3);
    var bs := LittleEndian.Bytes(v, w);
    var m := StoreAt(dmem, addr, v, st).value;
    assert m == dmem[..addr] + bs + dmem[addr + w..];
    assert m[addr..addr + w] == bs;
    LittleEndian.ValueOfBytes(v, w);
  }

  /** SW to an aligned address inside memory succeeds, and LW from the same address then puts
      exactly the stored word in its register; memory stays as the store left it. */
  lemma StoreWordThenLoadWord(rf: Regfile, dmem: seq<bv8>, st: Operand, ld: Operand)
    requires RegistersInRange(st) && RegistersInRange(ld)
    requires st.kind == Store && st.funct3 == 2 && ld.kind == Load && ld.funct3 == 2
    requires Address(rf, ld) == Address(rf, st)
    requires Address(rf, st) % 4 == 0 && Address(rf, st) + 4 <= |dmem|
    ensures Execute(rf, dmem, st).Ok?
    ensures var m := Execute(rf, dmem, st).value;
      Execute(m.rf, m.dmem, ld) == Ok(Machine(SetReg(rf, ld.rd, Reg(rf, st.rs2)), m.dmem))
  {
    var m := Execute(rf, dmem, st).value;
    StoreThenLoad(dmem, Address(rf, st), Reg(rf, st.rs2), st, ld);
    LittleEndian.LowMaskValues();
    assert m.rf == rf;
  }

  /** A store leaves a load that does not overlap it unchanged, faults included. */
  lemma DisjointStoreInvisible(dmem: seq<bv8>, sa: nat, v: bv32, st: Operand, la: nat, ld: Operand)
    requires StoreAt(dmem, sa, v, st).Ok?
    requires la + LoadWidth(ld.funct3) <= sa || sa + StoreWidth(st.funct3) <= la
    ensures LoadAt(StoreAt(dmem, sa, v, st).value, la, ld) == LoadAt(dmem, la, ld)
  {
    var w := LoadWidth(ld.funct3);
    var m := StoreAt(dmem, sa, v, st).value;
    StoreFrame(dmem, sa, v, st);
    if w > 0 && la + w <= |dmem| {
      assert forall k :: la <= k < la + w ==> m[k] == dmem[k];
      assert m[la..la + w] == dmem[la..la + w];
    }
    LoadSeesOnlyItsBytes(m, dmem, la, ld);
  }

  /** A load reads nothing of memory but its size and the bytes it covers. */
  lemma LoadSeesOnlyItsBytes(d1: seq<bv8>, d2: seq<bv8>, addr: nat, op: Operand)
    requires |d1| == |d2|
    requires var w := LoadWidth(op.funct3);
      w > 0 && addr + w <= |d1| ==> d1[addr..addr + w] == d2[addr..addr + w]
    ensures LoadAt(d1, addr, op) == LoadAt(d2, addr, op)
  {
  }

  // Loads as written

  /** Every successful load is zero-extended: nothing above its width is set. */
  lemma LoadZeroExtends(dmem: seq<bv8>, addr: nat, op: Operand)
    requires LoadAt(dmem, addr, op).Ok?
    ensures LoadAt(dmem, addr, op).value <= LittleEndian.LowMask(LoadWidth(op.funct3))
  {
    var w := LoadWidth(op.funct3);
    LittleEndian.ValueBound(dmem[addr..addr + w]);
  }

  /** LB behaves as LBU and LH as LHU: the library never sign-extends a load. */
  lemma SignedLoadsAreUnsigned(dmem: seq<bv8>, addr: nat, op: Operand)
    ensures op.funct3 == 0 ==> LoadAt(dmem, addr, op) == LoadAt(dmem, addr, op.(funct3 := 4))
    ensures op.funct3 == 1 ==> LoadAt(dmem, addr, op) == LoadAt(dmem, addr, op.(funct3 := 5))
  {
  }

  /** LB of the byte 0xFF gives 0xFF, where RV32I sign-extends it to 0xFFFF_FFFF. */
  lemma LoadByteOfAllOnes()
    ensures var op := Operand(Load, 0x03, 1, 0, 0, 0, 0, 0);
      Execute(New(0), [0xFF], op) == Ok(Machine(SetReg(New(0), 1, 0xFF), [0xFF]))
  {
    var op := Operand(Load, 0x03, 1, 0, 0, 0, 0, 0);
    assert Address(New(0), op) == 0;
    LittleEndian.Value1(0xFF);
  }

  // Arithmetic as written

  /** `addi x1, x0, -1` encodes the immediate 0xFFF; the library adds it unextended, so x1
      becomes 0xFFF where RV32I gives 0xFFFF_FFFF. */
  lemma AddiImmediateNotSignExtended()
    ensures var op := Operand(OpImm, 0x13, 1, 0, 0, 0, 0, 0xFFF);
      && Decode(0xFFF0_0093) == Ok(op)
      && Execute(New(0), [], op) == Ok(Machine(SetReg(New(0), 1, 0xFFF), []))
  {
    var op := Operand(OpImm, 0x13, 1, 0, 0, 0, 0, 0xFFF);
    assert Reg(New(0), 0) == 0;
  }

  /** ADD wraps at 2^32: 0xFFFF_FFFF + 1 is 0. */
  lemma AddWraps(rf: Regfile, op: Operand)
    requires RegistersInRange(op) && op.kind == Op && op.funct7 == 0 && op.funct3 == 0
    requires Reg(rf, op.rs1) == 0xFFFF_FFFF && Reg(rf, op.rs2) == 1
    ensures Execute(rf, [], op).Ok? && Reg(Execute(rf, [], op).value.rf, op.rd) == 0
  {
  }

  /** The effective address wraps at 2^32 instead of reaching past it: x1 = 0xFFFF_FFFF plus
      the immediate 4 addresses byte 3. */
  lemma AddressWraps()
    ensures var op := Operand(Load, 0x03, 2, 2, 1, 0, 0, 4);
      Address(SetReg(New(0), 1, 0xFFFF_FFFF), op) == 3
  {
  }

  /** x0 is an ordinary register here: `addi x0, x0, 5` leaves 5 in it. */
  lemma ZeroRegisterIsWritable()
    ensures var op := Operand(OpImm, 0x13, 0, 0, 0, 0, 0, 5);
      && Decode(0x0050_0013) == Ok(op)
      && Execute(New(0), [], op).Ok?
      && Reg(Execute(New(0), [], op).value.rf, 0) == 5
  {
  }

  /** LUI and the stub kinds decode, but `execute` refuses them with the opcode `decode` saw. */
  lemma DecodedButNotExecuted(instr: bv32, rf: Regfile, dmem: seq<bv8>)
    requires Decode(instr).Ok? && !Executable(Decode(instr).value.kind)
    ensures Execute(rf, dmem, Decode(instr).value) == Err(UnsupportedOpcode(instr & 0x7F))
  {
  }

  // One instruction from the image

  /** Fetching `addi x1, x0, 5` from address 0, decoding and executing it sets x1 to 5 and
      leaves the pc at 0: `execute` does not advance it. */
  lemma FetchDecodeExecuteAddi()
    ensures var rf := New(0);
      var imem: seq<bv8> := [0x93, 0x00, 0x50, 0x00];
      var op := Operand(OpImm, 0x13, 1, 0, 0, 0, 0, 5);
      && GetNextInstr(rf, imem) == Ok(0x0050_0093)
      && Decode(0x0050_0093) == Ok(op)
      && Execute(rf, [], op) == Ok(Machine(SetReg(rf, 1, 5), []))
      && GetPc(SetReg(rf, 1, 5)) == 0
  {
    var imem: seq<bv8> := [0x93, 0x00, 0x50, 0x00];
    assert imem[0..4] == imem;
    LittleEndian.Value4(0x93, 0x00, 0x50, 0x00);
    var op := Operand(OpImm, 0x13, 1, 0, 0, 0, 0, 5);
    assert Reg(New(0), 0) == 0;
  }
}
