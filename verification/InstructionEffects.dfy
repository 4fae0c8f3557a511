/** What one implemented instruction does, mnemonic by mnemonic, from the registers before it, its
    immediate and the bytes in memory. */
module InstructionEffects {
  import opened Words
  import W = Wrappers
  import opened CodecTables
  import opened ByteMemory
  import opened Machines
  import opened MemoryNumbers
  import opened ExecutorMeaning

  // ---------- Values ----------

  predicate SameBlock(r: Regs, r': Regs) {
    && r'.tgt == r.tgt && r'.carg == r.carg && r'.brtype == r.brtype && r'.blocktype == r.blocktype
    && r'.bpc == r.bpc && r'.ssrAcr == r.ssrAcr && r'.acr == r.acr
  }

  predicate SameScalars(r: Regs, r': Regs) {
    r'.gpr == r.gpr && r'.tq == r.tq && r'.uq == r.uq
  }

  /** Bookkeeping of every implemented instruction. */
  predicate Counted(r: Regs, r': Regs, inst: Inst) {
    r'.insnPcNext == inst.nextPc && r'.insnCount == (r.insnCount + 1) % TWO_64
  }

  /** Executing the instruction commits one record with this destination value and memory access. */
  predicate Commits(m: Machine, inst: Inst, value: u64, access: MemoryAccess) {
    var m' := ExecuteOf(m, inst);
    && |m'.committed| == |m.committed| + 1 && m'.committed[..|m.committed|] == m.committed
    && m'.lastCommitted == W.Some(m'.committed[|m.committed|])
    && m'.committed[|m.committed|].dst0Data == value && m'.committed[|m.committed|].memory == access
  }

  /** Executing the instruction puts v into its destination and its record, goes on to the next
      instruction, and changes nothing else. */
  predicate Produces(m: Machine, inst: Inst, v: u64, access: MemoryAccess) {
    var m' := ExecuteOf(m, inst);
    && Receives(m.regs, m'.regs, inst.data.dsts, v) && SameBlock(m.regs, m'.regs) && Counted(m.regs, m'.regs, inst)
    && m'.regs.pc == inst.nextPc && m'.memory == m.memory && m'.terminated == m.terminated
    && Commits(m, inst, v, access)
  }

  lemma {:induction false} BegunReads(r: Regs, op: Opcode, inst: Inst)
    ensures forall idx: u64 :: ReadGpr(BeginRegs(r, op, inst), idx) == ReadGpr(r, idx)
    ensures SameScalars(r, BeginRegs(r, op, inst)) && SameBlock(r, BeginRegs(r, op, inst))
    ensures Counted(r, BeginRegs(r, op, inst), inst) && BeginRegs(r, op, inst).pc == r.pc
  {
  }

  lemma {:induction false} WriteReceives(r: Regs, ops: seq<Operand>, v: u64, next: u64)
    ensures
      var r' := WriteScalar(r, OperandAt(ops, 0), v).(pc := next);
      && Receives(r, r', ops, v) && SameBlock(r, r') && r'.pc == next
      && r'.insnPcNext == r.insnPcNext && r'.insnCount == r.insnCount
  {
  }

  lemma {:induction false} ThroughBegin(r: Regs, begun: Regs, r': Regs, inst: Inst, v: u64)
    requires SameScalars(r, begun) && SameBlock(r, begun) && Counted(r, begun, inst)
    requires Receives(begun, r', inst.data.dsts, v) && SameBlock(begun, r')
    requires r'.insnPcNext == begun.insnPcNext && r'.insnCount == begun.insnCount
    ensures Receives(r, r', inst.data.dsts, v) && SameBlock(r, r') && Counted(r, r', inst)
  {
  }

  /** The eight instructions with a scalar destination. */
  lemma {:induction false} ValueStep(m: Machine, inst: Inst, op: Opcode, v: u64)
    requires op == OpcodeOf(Mnemonic(inst)) && WritesScalar(op)
    requires v == ScalarValue(BeginRegs(m.regs, op, inst), m.memory, op, inst)
    ensures Produces(m, inst, v,
              if op.Lwi? then Load(LoadAddress(BeginRegs(m.regs, op, inst), inst), v) else NoAccess)
  {
    hide OpcodeOf, Mnemonic, ScalarValue, BeginRegs, WriteScalar, Receives, LoadAddress, SameBlock, Counted;
    BegunReads(m.regs, op, inst);
    var begun := BeginRegs(m.regs, op, inst);
    WriteReceives(begun, inst.data.dsts, v, inst.nextPc);
    ThroughBegin(m.regs, begun, WriteScalar(begun, OperandAt(inst.data.dsts, 0), v).(pc := inst.nextPc), inst, v);
  }

  lemma {:induction false} AddiEffect(m: Machine, inst: Inst, a: int, v: int)
    requires Mnemonic(inst) == "ADDI" && Reads(m.regs, inst.data.srcs, 0, a)
    requires Signed(inst.data.fields, ["uimm", "uimm12", "simm", "imms", "simm12"], v)
    ensures Produces(m, inst, (a + v) % TWO_64, NoAccess)
  {
    hide OpcodeOf, Signed, Reads, SignedAny, ReadGpr, BeginRegs, Produces, FieldAt;
    ValueOpcodes();
    BegunReads(m.regs, Opcode.Addi, inst);
    ReadsMeaning(m.regs, inst.data.srcs, 0);
    ImmediateMeaning(inst.data.fields, ["uimm", "uimm12", "simm", "imms", "simm12"]);
    AddMod(a, v);
    ValueStep(m, inst, Opcode.Addi, (a + v) % TWO_64);
  }

  lemma {:induction false} AddMod(a: int, v: int)
    ensures (a + v % TWO_64) % TWO_64 == (a + v) % TWO_64
  {
  }

  lemma {:induction false} TimesMod(v: int, k: nat)
    ensures v % TWO_64 * k % TWO_64 == k * v % TWO_64
  {
    var q, r := v / TWO_64, v % TWO_64;
    assert v == q * TWO_64 + r;
    var q', r' := r * k / TWO_64, r * k % TWO_64;
    assert r * k == q' * TWO_64 + r';
    Distribute(k, q, r);
    ModUnique(k * v, k * q + q', r');
  }

  lemma {:induction false} Distribute(k: int, q: int, r: int)
    ensures k * (q * TWO_64 + r) == k * q * TWO_64 + r * k
  {
  }

  lemma {:induction false} LuiEffect(m: Machine, inst: Inst, v: int)
    requires Mnemonic(inst) == "LUI" && Signed(inst.data.fields, ["simm20", "imm20", "simm", "imm"], v)
    ensures Produces(m, inst, 4096 * v % TWO_64, NoAccess)
  {
    hide OpcodeOf, Signed, ScalarValue, BeginRegs, Produces;
    ValueOpcodes();
    LuiValue(BeginRegs(m.regs, Opcode.Lui, inst), m.memory, inst, v);
    ValueStep(m, inst, Opcode.Lui, 4096 * v % TWO_64);
  }

  lemma {:induction false} LuiValue(r: Regs, m: Memory, inst: Inst, v: int)
    requires Signed(inst.data.fields, ["simm20", "imm20", "simm", "imm"], v)
    ensures ScalarValue(r, m, Opcode.Lui, inst) == 4096 * v % TWO_64
  {
    hide Signed, SignedAny;
    ImmediateMeaning(inst.data.fields, ["simm20", "imm20", "simm", "imm"]);
    TimesMod(v, 4096);
  }

  lemma {:induction false} HlLuiEffect(m: Machine, inst: Inst, u: int)
    requires Mnemonic(inst) == "HL.LUI" && Unsigned(inst.data.fields, ["imm32", "imm"], u)
    ensures Produces(m, inst, u % 0x1_0000_0000 * 0x1_0000_0000, NoAccess)
  {
    hide OpcodeOf, Unsigned, UnsignedAny, BeginRegs, Produces;
    ValueOpcodes();
    ImmediateMeaning(inst.data.fields, ["imm32", "imm"]);
    ValueStep(m, inst, Opcode.HlLui, u % 0x1_0000_0000 * 0x1_0000_0000);
  }

  lemma {:induction false} HlLiuEffect(m: Machine, inst: Inst, u: int)
    requires Mnemonic(inst) == "HL.LIU" && Unsigned(inst.data.fields, ["uimm32", "imm"], u)
    ensures Produces(m, inst, u % 0x1_0000_0000, NoAccess)
  {
    hide OpcodeOf, Unsigned, UnsignedAny, BeginRegs, Produces;
    ValueOpcodes();
    ImmediateMeaning(inst.data.fields, ["uimm32", "imm"]);
    ValueStep(m, inst, Opcode.HlLiu, u % 0x1_0000_0000);
  }

  lemma {:induction false} HlLisEffect(m: Machine, inst: Inst, v: int)
    requires Mnemonic(inst) == "HL.LIS" && Signed(inst.data.fields, ["simm32", "imm"], v)
    ensures Produces(m, inst, v % TWO_64, NoAccess)
  {
    hide OpcodeOf, Signed, SignedAny, BeginRegs, Produces;
    ValueOpcodes();
    ImmediateMeaning(inst.data.fields, ["simm32", "imm"]);
    ValueStep(m, inst, Opcode.HlLis, v % TWO_64);
  }

  lemma {:induction false} MoviEffect(m: Machine, inst: Inst, v: int)
    requires Mnemonic(inst) == "C.MOVI" && Signed(inst.data.fields, ["simm5"], v)
    ensures Produces(m, inst, v % TWO_64, NoAccess)
  {
    hide OpcodeOf, Signed, SignedAny, BeginRegs, Produces;
    ValueOpcodes();
    ImmediateMeaning(inst.data.fields, ["simm5"]);
    ValueStep(m, inst, Opcode.Movi, v % TWO_64);
  }

  lemma {:induction false} MovrEffect(m: Machine, inst: Inst, a: u64)
    requires Mnemonic(inst) == "C.MOVR" && Reads(m.regs, inst.data.srcs, 0, a)
    ensures Produces(m, inst, a, NoAccess)
  {
    hide OpcodeOf, Reads, ReadGpr, BeginRegs, Produces;
    ValueOpcodes();
    BegunReads(m.regs, Opcode.Movr, inst);
    ReadsMeaning(m.regs, inst.data.srcs, 0);
    ValueStep(m, inst, Opcode.Movr, a);
  }

  /** The four bytes from an address on, wrapping around, are mapped and this is their number. */
  predicate WordAt(m: Memory, a: u64, n: int) {
    && (forall k :: 0 <= k < 4 ==> Offset(a, k) in m)
    && n == LittleEndian([m[Offset(a, 0)], m[Offset(a, 1)], m[Offset(a, 2)], m[Offset(a, 3)]])
  }

  /** The number an LWI loads: the word, its sign bit copied up to bit 63, or 0 when a byte is not mapped. */
  ghost predicate Loads(m: Memory, a: u64, v: int) {
    if forall k :: 0 <= k < 4 ==> Offset(a, k) in m then
      exists n :: WordAt(m, a, n) && v == (if n < 0x8000_0000 then n else n + TWO_64 - 0x1_0000_0000)
    else v == 0
  }

  lemma {:induction false} LoadedMeaning(m: Memory, a: u64)
    ensures Loads(m, a, LoadedValue(m, a)) && forall v :: Loads(m, a, v) ==> v == LoadedValue(m, a)
  {
    hide Packed, SignExtend, LittleEndian, ToNat, Offset;
    if forall k :: 0 <= k < 4 ==> Offset(a, k) in m {
      var bytes := ReadBytes(m, a, 4).value;
      assert bytes == [m[Offset(a, 0)], m[Offset(a, 1)], m[Offset(a, 2)], m[Offset(a, 3)]];
      PackedNumber(bytes);
      PackedClear(bytes);
      SignedWord(Packed(bytes));
      assert WordAt(m, a, LittleEndian(bytes));
    } else {
      assert !Mapped(m, a, 4);
      ExtendZero();
    }
  }

  lemma {:induction false} PackedClear(bytes: seq<u8>)
    requires |bytes| <= 4
    ensures forall i :: 32 <= i < 64 ==> !Packed(bytes)[i]
  {
  }

  lemma {:induction false} ExtendZero()
    ensures SignExtend(Zero(), 32) % TWO_64 == 0
  {
    ClearHighBound(Zero(), 0);
    SignedWord(Zero());
  }

  lemma {:induction false} AddressMeaning(a: u64, inst: Inst, v: int)
    requires Signed(inst.data.fields, ["simm", "simm12"], v)
    ensures Address(a, inst) == (a + 4 * v) % TWO_64
  {
    hide Signed, SignedAny;
    ImmediateMeaning(inst.data.fields, ["simm", "simm12"]);
    TimesMod(v, 4);
    AddMod(a, 4 * v);
  }

  lemma {:induction false} LwiEffect(m: Machine, inst: Inst, a: u64, v: int, loaded: u64)
    requires Mnemonic(inst) == "LWI" && Reads(m.regs, inst.data.srcs, 0, a)
    requires Signed(inst.data.fields, ["simm", "simm12"], v) && Loads(m.memory, (a + 4 * v) % TWO_64, loaded)
    ensures Produces(m, inst, loaded, Load((a + 4 * v) % TWO_64, loaded))
  {
    hide OpcodeOf, Reads, ReadGpr, BeginRegs, Produces, Signed, Loads, LoadedValue, Address;
    ValueOpcodes();
    BegunReads(m.regs, Opcode.Lwi, inst);
    ReadsMeaning(m.regs, inst.data.srcs, 0);
    AddressMeaning(a, inst, v);
    LoadedMeaning(m.memory, (a + 4 * v) % TWO_64);
    ValueStep(m, inst, Opcode.Lwi, loaded);
  }

  /** Adding an immediate and then its negation to the same register restores it, over two steps. */
  lemma {:induction false} AddThenSubtract(t: Table, m: Machine, stop: W.Option<u64>, i: Inst, j: Inst,
                                           reg: u64, v: int)
    requires NextInst(t, m, stop) == W.Some(i) && NextInst(t, StepOf(t, m, stop), stop) == W.Some(j)
    requires Mnemonic(i) == Mnemonic(j) == "ADDI" && 1 <= reg <= 23
    requires |i.data.srcs| > 0 && |i.data.dsts| > 0 && i.data.srcs[0].value == i.data.dsts[0].value == reg
    requires |j.data.srcs| > 0 && |j.data.dsts| > 0 && j.data.srcs[0].value == j.data.dsts[0].value == reg
    requires Signed(i.data.fields, ["uimm", "uimm12", "simm", "imms", "simm12"], v)
    requires Signed(j.data.fields, ["uimm", "uimm12", "simm", "imms", "simm12"], -v)
    ensures SameScalars(m.regs, StepOf(t, StepOf(t, m, stop), stop).regs)
    ensures StepOf(t, StepOf(t, m, stop), stop).memory == m.memory
  {
    hide ExecuteOf, Signed, FetchOf;
    var a := m.regs.gpr[reg];
    AddiEffect(m, i, a, v);
    var m1 := StepOf(t, m, stop);
    AddiEffect(m1, j, (a + v) % TWO_64, -v);
    SubtractAgain(a, v);
  }

  lemma {:induction false} SubtractAgain(a: u64, v: int)
    ensures ((a + v) % TWO_64 - v) % TWO_64 == a
  {
    AddMod(-v, a + v);
  }

  // ---------- Stores, copies and fills ----------

  /** Only memory and the program counter move on: no register, queue or block state changes. */
  predicate OnlyMemory(m: Machine, inst: Inst, access: MemoryAccess) {
    var m' := ExecuteOf(m, inst);
    && SameScalars(m.regs, m'.regs) && SameBlock(m.regs, m'.regs) && Counted(m.regs, m'.regs, inst)
    && m'.regs.pc == inst.nextPc && Commits(m, inst, 0, access)
  }

  lemma {:induction false} MemoryStep(m: Machine, inst: Inst, op: Opcode)
    requires op == OpcodeOf(Mnemonic(inst)) && op in {Opcode.Swi, Mcopy, Mset}
    ensures
      var begun := BeginRegs(m.regs, op, inst);
      && ExecuteOf(m, inst).memory == BodyMemory(begun, m.memory, op, inst)
      && OnlyMemory(m, inst, if op.Swi? then
           Store(StoreAddress(begun, inst), ReadGpr(begun, OperandAt(inst.data.srcs, 0)) % TWO_32) else NoAccess)
  {
    hide OpcodeOf, Mnemonic, BeginRegs, SameBlock, Counted, SameScalars, BodyMemory, StoreAddress, ReadGpr;
    BegunReads(m.regs, op, inst);
    var begun := BeginRegs(m.regs, op, inst);
    NextOnly(m.regs, begun, inst);
  }

  lemma {:induction false} NextOnly(r: Regs, begun: Regs, inst: Inst)
    requires SameScalars(r, begun) && SameBlock(r, begun) && Counted(r, begun, inst)
    ensures
      var r' := begun.(pc := inst.nextPc);
      SameScalars(r, r') && SameBlock(r, r') && Counted(r, r', inst)
  {
  }

  /** Byte x of memory after n of these bytes are put down from address a on, wrapping around. */
  predicate Overlaid(m: Memory, m': Memory, a: u64, bytes: seq<int>, x: u64) {
    var i := (x - a) % TWO_64;
    if i < |bytes| then x in m' && m'[x] == bytes[i] else (x in m' <==> x in m) && (x in m ==> m'[x] == m[x])
  }

  /** SWI stores the four bytes of its first operand at its second plus four times the immediate. */
  lemma {:induction false} SwiEffect(m: Machine, inst: Inst, a: u64, b: u64, v: int, x: u64)
    requires Mnemonic(inst) == "SWI" && Reads(m.regs, inst.data.srcs, 0, a) && Reads(m.regs, inst.data.srcs, 1, b)
    requires Signed(inst.data.fields, ["simm", "simm12"], v)
    ensures
      var addr, n := (b + 4 * v) % TWO_64, a % 0x1_0000_0000;
      && OnlyMemory(m, inst, Store(addr, n))
      && Overlaid(m.memory, ExecuteOf(m, inst).memory, addr,
                  [n % 256, n / 0x100 % 256, n / 0x1_0000 % 256, n / 0x100_0000 % 256], x)
  {
    hide OpcodeOf, Reads, ReadGpr, BeginRegs, OnlyMemory, Signed, Address, ExecuteOf, BytesOf, StoreBytes, FromNat;
    OtherOpcodes();
    BegunReads(m.regs, Opcode.Swi, inst);
    ReadsMeaning(m.regs, inst.data.srcs, 0);
    ReadsMeaning(m.regs, inst.data.srcs, 1);
    AddressMeaning(b, inst, v);
    MemoryStep(m, inst, Opcode.Swi);
    StoredNumber(m.memory, (b + 4 * v) % TWO_64, a % TWO_32, x);
  }

  lemma {:induction false} StoredNumber(m: Memory, a: u64, n: nat, x: u64)
    ensures Overlaid(m, StoreBytes(m, a, BytesOf(FromNat(n, 64), 4)), a,
                     [n % 256, n / 0x100 % 256, n / 0x1_0000 % 256, n / 0x100_0000 % 256], x)
  {
    hide StoreBytes, FromNat, ByteOf;
    var bytes := BytesOf(FromNat(n, 64), 4);
    assert Pow2(0) == 1 && Pow2(8) == 0x100;
    PowSplit(8, 8);
    PowSplit(8, 16);
    ByteOfNumber(n, 0);
    ByteOfNumber(n, 1);
    ByteOfNumber(n, 2);
    ByteOfNumber(n, 3);
    StoredByte(m, a, bytes, x);
  }

  /** MCOPY copies to its first operand from its second, as many bytes as its third says; the closed form
      of the copy loop says which bytes these are when the two overlap. */
  lemma {:induction false} McopyEffect(m: Machine, inst: Inst, a: u64, b: u64, n: u64)
    requires Mnemonic(inst) == "MCOPY" && Reads(m.regs, inst.data.srcs, 0, a)
    requires Reads(m.regs, inst.data.srcs, 1, b) && Reads(m.regs, inst.data.srcs, 2, n)
    ensures OnlyMemory(m, inst, NoAccess) && ExecuteOf(m, inst).memory == CopyUpTo(m.memory, a, b, n)
  {
    hide OpcodeOf, Reads, ReadGpr, BeginRegs, OnlyMemory, ExecuteOf, CopyUpTo;
    OtherOpcodes();
    BegunReads(m.regs, Opcode.Mcopy, inst);
    ReadsMeaning(m.regs, inst.data.srcs, 0);
    ReadsMeaning(m.regs, inst.data.srcs, 1);
    ReadsMeaning(m.regs, inst.data.srcs, 2);
    MemoryStep(m, inst, Opcode.Mcopy);
  }

  /** Byte by byte, d being how far the destination lies behind the source: byte i of the destination is old
      byte i of the source, or byte i modulo d of it when d is positive and i reaches d; a byte that is not
      mapped counts as 0, and every address outside the destination is as before. */
  lemma {:induction false} McopyByte(m: Machine, inst: Inst, a: u64, b: u64, n: u64, x: u64)
    requires Mnemonic(inst) == "MCOPY" && Reads(m.regs, inst.data.srcs, 0, a)
    requires Reads(m.regs, inst.data.srcs, 1, b) && Reads(m.regs, inst.data.srcs, 2, n)
    ensures
      var m', i, d := ExecuteOf(m, inst).memory, (x - a) % TWO_64, (a - b) % TWO_64;
      var from := (b + if d > 0 then i % d else i) % TWO_64;
      if i < n then x in m' && m'[x] == (if from in m.memory then m.memory[from] else 0)
      else (x in m' <==> x in m.memory) && (x in m.memory ==> m'[x] == m.memory[x])
  {
    hide Reads, ExecuteOf, CopyUpTo, OnlyMemory, Mnemonic;
    McopyEffect(m, inst, a, b, n);
    CopyClosedForm(m.memory, a, b, n, x);
  }

  /** MSET puts the low byte of its second operand at as many addresses, from its first on, as its third
      says, and nowhere else. */
  lemma {:induction false} MsetEffect(m: Machine, inst: Inst, a: u64, b: u64, n: u64, x: u64)
    requires Mnemonic(inst) == "MSET" && Reads(m.regs, inst.data.srcs, 0, a)
    requires Reads(m.regs, inst.data.srcs, 1, b) && Reads(m.regs, inst.data.srcs, 2, n)
    ensures
      var m' := ExecuteOf(m, inst).memory;
      && OnlyMemory(m, inst, NoAccess)
      && (if (x - a) % TWO_64 < n then x in m' && m'[x] == b % 256
          else (x in m' <==> x in m.memory) && (x in m.memory ==> m'[x] == m.memory[x]))
  {
    hide OpcodeOf, Reads, ReadGpr, BeginRegs, OnlyMemory, ExecuteOf, StoreBytes;
    OtherOpcodes();
    BegunReads(m.regs, Opcode.Mset, inst);
    ReadsMeaning(m.regs, inst.data.srcs, 0);
    ReadsMeaning(m.regs, inst.data.srcs, 1);
    ReadsMeaning(m.regs, inst.data.srcs, 2);
    MemoryStep(m, inst, Opcode.Mset);
    StoredByte(m.memory, a, Copies(b % 256, n), x);
  }
}
