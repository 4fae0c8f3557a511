/** The execution context and the reference executor, changing registers, memory and records in place. */
module ReferenceExecutors {
  import opened Words
  import W = Wrappers
  import opened CodecTables
  import opened Codec
  import opened ByteMemory
  import opened Machines

  /** Shifts every entry down one place and puts the value in front. */
  method PushQueue(queue: array<u64>, value: u64)
    requires queue.Length == 4
    modifies queue
    ensures queue[..] == Pushed(old(queue[..]), value)
  {
    for idx := queue.Length downto 1
      invariant forall k :: 0 <= k < idx ==> queue[k] == old(queue[k])
      invariant forall k :: idx <= k < 4 ==> queue[k] == old(queue[k - 1])
    {
      queue[idx] := queue[idx - 1];
    }
    queue[0] := value;
  }

  method Clear(registers: array<u64>)
    modifies registers
    ensures registers[..] == Zeros(registers.Length)
  {
    forall i | 0 <= i < registers.Length {
      registers[i] := 0;
    }
  }

  class LinxState {
    const gpr: array<u64>
    const tq: array<u64>
    const uq: array<u64>
    var ssrAcr: SsrBanks
    var acr: Acr
    var tgt: u64
    var carg: u32
    var brtype: u32
    var blocktype: u32
    var bpc: u64
    var insnPcNext: u64
    var pc: u64
    var insnCount: u64
    var blockKind: BlockKind
    var laneId: int

    ghost predicate Valid() {
      gpr.Length == 24 && tq.Length == 4 && uq.Length == 4 && gpr != tq && gpr != uq && tq != uq
    }

    ghost function Repr(): set<object> {
      {this, gpr, tq, uq}
    }

    ghost function View(): Regs
      requires Valid()
      reads Repr()
    {
      Regs(gpr[..], tq[..], uq[..], ssrAcr, acr, tgt, carg, brtype, blocktype, bpc, insnPcNext, pc,
           insnCount, blockKind, laneId)
    }

    constructor ()
      ensures Valid() && fresh(Repr()) && View() == ResetRegs()
    {
      gpr, tq, uq := new u64[24](i => 0), new u64[4](i => 0), new u64[4](i => 0);
      ssrAcr, acr := ZeroBanks(16), 0;
      tgt, carg, brtype, blocktype, bpc, insnPcNext, pc, insnCount := 0, 0, 0, 0, 0, 0, 0, 0;
      blockKind, laneId := Scalar, -1;
    }

    method Reset()
      requires Valid()
      modifies Repr()
      ensures View() == ResetRegs()
    {
      Clear(gpr);
      Clear(tq);
      Clear(uq);
      ssrAcr, acr := ZeroBanks(16), 0;
      tgt, carg, brtype, blocktype, bpc, insnPcNext, pc, insnCount := 0, 0, 0, 0, 0, 0, 0, 0;
      blockKind, laneId := Scalar, -1;
    }

    function Gpr(idx: u64): (value: u64)
      requires Valid()
      reads Repr()
      ensures value == ReadGpr(View(), idx)
    {
      if idx == 0 || idx >= 24 then
        if 24 <= idx < 28 then tq[idx - 24]
        else if 28 <= idx < 32 then uq[idx - 28]
        else 0
      else gpr[idx]
    }

    method WriteScalarDestination(idx: u64, value: u64)
      requires Valid()
      modifies gpr, tq, uq
      ensures View() == WriteScalar(old(View()), idx, value)
    {
      if idx == 31 {
        PushQueue(tq, value);
      } else if idx == 30 {
        PushQueue(uq, value);
      } else if 0 < idx < 24 {
        gpr[idx] := value;
      }
    }

    method SetPc(next: u64)
      requires Valid()
      modifies `pc
      ensures View() == old(View()).(pc := next)
    {
      pc := next;
    }

    /** The head of `Execute`. */
    method Begin(op: Opcode, inst: Inst)
      requires Valid()
      modifies `insnPcNext, `insnCount, `blockKind, `laneId
      ensures View() == BeginRegs(old(View()), op, inst)
    {
      insnPcNext := inst.nextPc;
      insnCount := (insnCount + 1) % TWO_64;
      blockKind := ResolveBlockKind(op, blockKind);
      laneId := ResolveLaneId(blockKind);
    }

    /** The block headers and C.BSTOP. */
    method ExecuteBlock(op: Opcode, inst: Inst, ghost m: Memory)
      requires Valid() && op in {BstartStd, BstartVpar, BstartVseq, Bstart, Bstop}
      modifies this
      ensures View() == BodyRegs(old(View()), m, op, inst)
    {
      hide ScalarValue, WriteScalar, ReadGpr, UnsignedAny, SignedAny, Contains;
      var currentPc := pc;
      match op {
        case BstartStd =>
          bpc := currentPc;
          brtype := UnsignedAny(inst.data.fields, ["BrType"]) % TWO_32;
          blocktype, blockKind, laneId := 0, Scalar, -1;
          pc := inst.nextPc;
        case BstartVpar =>
          bpc, blockKind, laneId := currentPc, Vpar, 0;
          pc := inst.nextPc;
        case BstartVseq =>
          bpc, blockKind, laneId := currentPc, Vseq, 0;
          pc := inst.nextPc;
        case Bstart =>
          tgt := AsU64(currentPc + 2 * SignedAny(inst.data.fields, ["simm12"]));
          bpc := currentPc;
          pc := inst.nextPc;
          blocktype := if Direct(inst) then 1 else 2;
        case Bstop =>
          if blocktype == 1 {
            pc := tgt;
          } else if blocktype == 2 && carg != 0 {
            pc := tgt;
          } else {
            pc := inst.nextPc;
          }
          blocktype, carg := 0, 0;
      }
    }

    /** SETC, SSRSET and the tile headers. */
    method ExecuteControl(op: Opcode, inst: Inst, ghost m: Memory)
      requires Valid() && (op in {SetcNe, SetcLtu, Ssrset, BText} || op.TileHeader?)
      modifies this
      ensures View() == BodyRegs(old(View()), m, op, inst)
    {
      hide ScalarValue, WriteScalar, ReadGpr, UnsignedAny, ResetRegs, OperandAt, Target, Direct;
      var first, second := Gpr(OperandAt(inst.data.srcs, 0)), Gpr(OperandAt(inst.data.srcs, 1));
      match op {
        case SetcNe =>
          carg := if first != second then 1 else 0;
        case SetcLtu =>
          carg := if first < second then 1 else 0;
        case Ssrset =>
          var id := UnsignedAny(inst.data.fields, ["SSR_ID"]);
          if id < 0x1000 {
            ssrAcr := ssrAcr[acr := ssrAcr[acr][id := first]];
          }
        case BText =>
          blockKind := Tlsu;
        case TileHeader(kind) =>
      }
      pc := inst.nextPc;
    }
  }

  class ExecutionContext {
    const state: LinxState
    var memory: Memory
    var committed: seq<Record>
    var lastCommitted: W.Option<Record>
    var cycle: u64
    var exitCode: int
    var terminated: bool
    var lastError: string
    var program: W.Option<Image>

    ghost predicate Valid() {
      state.Valid()
    }

    ghost function Repr(): set<object> {
      {this} + state.Repr()
    }

    ghost function Snapshot(): Machine
      requires Valid()
      reads Repr()
    {
      Machine(state.View(), memory, committed, lastCommitted, cycle, exitCode, terminated, lastError, program)
    }

    constructor ()
      ensures Valid() && fresh(Repr()) && Snapshot() == EmptyMachine(W.None)
    {
      state := new LinxState();
      memory, committed, lastCommitted, cycle := map[], [], W.None, 0;
      exitCode, terminated, lastError, program := 0, false, "", W.None;
    }

    // ---------- Memory ----------

    method Read8(addr: u64) returns (byte: W.Option<u8>)
      ensures byte == if addr in memory then W.Some(memory[addr]) else W.None
    {
      return if addr in memory then W.Some(memory[addr]) else W.None;
    }

    method Read16(addr: u64) returns (value: W.Option<Word>)
      ensures value == ReadWord(memory, addr, 2)
    {
      var lo := Read8(addr);
      var hi := Read8((addr + 1) % TWO_64);
      assert Offset(addr, 0) == addr && Offset(addr, 1) == (addr + 1) % TWO_64;
      if lo.None? || hi.None? {
        assert !Mapped(memory, addr, 2);
        return W.None;
      }
      assert [] + [lo.value] == [lo.value];
      OrByteGrows([], lo.value);
      OrByteGrows([lo.value], hi.value);
      PackedNothing();
      assert ReadBytes(memory, addr, 2).value == [lo.value, hi.value] == [lo.value] + [hi.value];
      return W.Some(OrByte(OrByte(Zero(), lo.value, 0), hi.value, 1));
    }

    /** The loop of `Read32` and `Read64`. */
    method ReadBytesLoop(addr: u64, size: nat) returns (value: W.Option<Word>)
      requires size <= 8
      ensures value == ReadWord(memory, addr, size)
    {
      var word := Zero();
      ghost var bytes := [];
      PackedNothing();
      for idx := 0 to size
        invariant |bytes| == idx && word == Packed(bytes)
        invariant forall k :: 0 <= k < idx ==> Offset(addr, k) in memory && bytes[k] == memory[Offset(addr, k)]
      {
        var byte := Read8(Offset(addr, idx));
        if byte.None? {
          assert !Mapped(memory, addr, size);
          return W.None;
        }
        OrByteGrows(bytes, byte.value);
        word, bytes := OrByte(word, byte.value, idx), bytes + [byte.value];
      }
      assert ReadBytes(memory, addr, size).value == bytes;
      return W.Some(word);
    }

    method Read32(addr: u64) returns (value: W.Option<Word>)
      ensures value == ReadWord(memory, addr, 4)
    {
      value := ReadBytesLoop(addr, 4);
    }

    method Read64(addr: u64) returns (value: W.Option<Word>)
      ensures value == ReadWord(memory, addr, 8)
    {
      value := ReadBytesLoop(addr, 8);
    }

    /** All bytes of a range that does not wrap around, or nothing. */
    method ReadMemoryRange(addr: u64, size: nat) returns (bytes: W.Option<seq<u8>>)
      ensures bytes == if size > 0 && addr + size > TWO_64 then W.None else ReadBytes(memory, addr, size)
    {
      if size > 0 && size - 1 > TWO_64 - 1 - addr {
        return W.None;
      }
      var read := [];
      for index := 0 to size
        invariant |read| == index
        invariant forall k :: 0 <= k < index ==> Offset(addr, k) in memory && read[k] == memory[Offset(addr, k)]
      {
        var byte := Read8(Offset(addr, index));
        if byte.None? {
          assert !Mapped(memory, addr, size);
          return W.None;
        }
        read := read + [byte.value];
      }
      assert ReadBytes(memory, addr, size).value == read;
      return W.Some(read);
    }

    method Write8(addr: u64, value: u8)
      modifies `memory
      ensures memory == old(memory)[addr := value]
    {
      memory := memory[addr := value];
    }

    /** The loop of `Write32` and `Write64`. */
    method WriteBytesLoop(addr: u64, value: Word, size: nat)
      modifies `memory
      ensures memory == StoreBytes(old(memory), addr, BytesOf(value, size))
    {
      ghost var bytes := BytesOf(value, size);
      for idx := 0 to size
        invariant memory == StoreBytes(old(memory), addr, bytes[..idx])
      {
        assert bytes[..idx + 1][..idx] == bytes[..idx];
        Write8(Offset(addr, idx), ByteOf(value, idx));
      }
      assert bytes[..size] == bytes;
    }

    method Write32(addr: u64, value: u32)
      requires Valid()
      modifies this
      ensures Snapshot() == Finish(
                old(Snapshot()).(memory := StoreBytes(old(memory), addr, BytesOf(FromNat(value, 64), 4))), addr, value)
    {
      WriteBytesLoop(addr, FromNat(value, 64), 4);
      HandleTestFinisherWrite(addr, value);
    }

    method Write64(addr: u64, value: u64)
      requires Valid()
      modifies this
      ensures Snapshot() == old(Snapshot()).(memory := StoreBytes(old(memory), addr, BytesOf(FromNat(value, 64), 8)))
    {
      WriteBytesLoop(addr, FromNat(value, 64), 8);
    }

    method HandleTestFinisherWrite(addr: u64, value: u32)
      requires Valid()
      modifies this
      ensures Snapshot() == Finish(old(Snapshot()), addr, value)
    {
      if addr != 0x10009000 {
        return;
      }
      var status, code := value % 0x1_0000, value / 0x1_0000;
      if status == 0x5555 {
        RequestTerminate(0, "finisher_pass");
      } else if status == 0x3333 {
        RequestTerminate(if code == 0 then 1 else code, "finisher_fail");
      } else if status == 0x7777 {
        RequestTerminate(if code == 0 then 1 else code, "finisher_reset");
      }
    }

    // ---------- Termination, records, loading ----------

    method RequestTerminate(code: int, reason: string)
      requires Valid()
      modifies `terminated, `exitCode, `lastError
      ensures Snapshot() == Terminate(old(Snapshot()), code, reason)
    {
      terminated, exitCode, lastError := true, code, reason;
    }

    method AppendRecord(record: Record)
      requires Valid()
      modifies `committed, `lastCommitted
      ensures Snapshot() == Append(old(Snapshot()), record)
    {
      committed := committed + [record];
      lastCommitted := W.Some(record);
    }

    method LoadProgram(image: Image)
      requires Valid()
      modifies Repr()
      ensures Snapshot() == LoadOf(old(Snapshot()), image)
    {
      program := W.Some(image);
      committed, lastCommitted := [], W.None;
      state.Reset();
      state.pc := image.entryPoint;
      LoadSectionBytes(image.sections);
    }

    method LoadSectionBytes(sections: seq<Section>)
      modifies `memory
      ensures memory == LoadSections(sections)
    {
      memory := map[];
      for k := 0 to |sections|
        invariant memory == LoadSections(sections[..k])
      {
        assert sections[..k + 1][..k] == sections[..k];
        LoadSection(sections[k]);
      }
      assert sections[..|sections|] == sections;
    }

    method LoadSection(section: Section)
      modifies `memory
      ensures memory == StoreBytes(old(memory), section.address, section.bytes)
    {
      var bytes := section.bytes;
      for idx := 0 to |bytes|
        invariant memory == StoreBytes(old(memory), section.address, bytes[..idx])
      {
        assert bytes[..idx + 1][..idx] == bytes[..idx];
        memory := memory[Offset(section.address, idx) := bytes[idx]];
      }
      assert bytes[..|bytes|] == bytes;
    }

    method Reset()
      requires Valid()
      modifies Repr()
      ensures Snapshot() == ResetOf(old(Snapshot()))
    {
      state.Reset();
      memory, committed, lastCommitted := map[], [], W.None;
      cycle, exitCode, terminated, lastError := 0, 0, false, "";
      if program.Some? {
        LoadProgram(program.value);
      }
    }

    // ---------- The memory loops of MCOPY and MSET ----------

    method CopyLoop(dst: u64, src: u64, count: nat)
      modifies `memory
      ensures memory == CopyUpTo(old(memory), dst, src, count)
    {
      for idx := 0 to count
        invariant memory == CopyUpTo(old(memory), dst, src, idx)
      {
        var byte := Read8(Offset(src, idx));
        Write8(Offset(dst, idx), if byte.Some? then byte.value else 0);
      }
    }

    method SetLoop(dst: u64, value: u8, count: nat)
      modifies `memory
      ensures memory == StoreBytes(old(memory), dst, Copies(value, count))
    {
      ghost var bytes := Copies(value, count);
      for idx := 0 to count
        invariant memory == StoreBytes(old(memory), dst, bytes[..idx])
      {
        assert bytes[..idx + 1][..idx] == bytes[..idx];
        Write8(Offset(dst, idx), value);
      }
      assert bytes[..count] == bytes;
    }
  }

  function Seen(inst: Minst): Inst
    reads inst
  {
    Inst(inst.uid, inst.pc, inst.nextPc, inst.Data())
  }

  class ReferenceExecutor {
    const ctx: ExecutionContext
    const table: Table

    constructor (ctx: ExecutionContext, table: Table)
      ensures this.ctx == ctx && this.table == table
    {
      this.ctx, this.table := ctx, table;
    }

    method FetchDecode() returns (inst: W.Option<Minst>)
      requires ctx.Valid()
      ensures inst.Some? ==> fresh(inst.value)
      ensures
        var m := ctx.Snapshot();
        var fetched := FetchOf(table, m.memory, m.regs.pc, (m.regs.insnCount + 1) % TWO_64);
        if inst.Some? then fetched == W.Some(Seen(inst.value)) else fetched == W.None
    {
      hide DecodedWord, Packed, ByteOf, OrByte;
      var state := ctx.state;
      var hw := ctx.Read16(state.pc);
      if hw.None? {
        return W.None;
      }
      LowByte(ctx.memory, state.pc);
      var low := ByteOf(hw.value, 0);
      var len := if low % 2 == 0 then (if low % 16 == 14 then 6 else 2) else if low % 16 == 15 then 8 else 4;
      var packed := ctx.ReadBytesLoop(state.pc, len);
      if packed.None? {
        return W.None;
      }
      var out := new Minst.CreateFetch((state.insnCount + 1) % TWO_64, state.pc, packed.value, len);
      var status := DecodePackedWord(table, packed.value, len * 8, out);
      if status != CodecStatus.Ok {
        return W.None;
      }
      return W.Some(out);
    }

    /** The scalar result of one instruction and its memory access, if it loads. */
    method ComputeScalar(op: Opcode, inst: Inst) returns (value: u64, access: MemoryAccess)
      requires ctx.Valid() && WritesScalar(op)
      ensures value == ScalarValue(ctx.state.View(), ctx.memory, op, inst)
      ensures access == if op.Lwi? then Load(LoadAddress(ctx.state.View(), inst), value) else NoAccess
    {
      var fields := inst.data.fields;
      var source := ctx.state.Gpr(OperandAt(inst.data.srcs, 0));
      access := NoAccess;
      match op {
        case Movi => value := AsU64(SignedAny(fields, ["simm5"]));
        case Movr => value := source;
        case Lui => value := AsU64(SignedAny(fields, ["simm20", "imm20", "simm", "imm"])) * 0x1000 % TWO_64;
        case HlLui => value := UnsignedAny(fields, ["imm32", "imm"]) % TWO_32 * TWO_32;
        case HlLiu => value := UnsignedAny(fields, ["uimm32", "imm"]) % TWO_32;
        case HlLis => value := AsU64(SignedAny(fields, ["simm32", "imm"]));
        case Addi =>
          value := (source + AsU64(SignedAny(fields, ["uimm", "uimm12", "simm", "imms", "simm12"]))) % TWO_64;
        case Lwi =>
          var addr := Address(source, inst);
          var raw := ctx.Read32(addr);
          value := AsU64(SignExtend(if raw.Some? then raw.value else Zero(), 32));
          access := Load(addr, value);
      }
    }

    method ExecuteScalar(op: Opcode, inst: Inst) returns (value: u64, access: MemoryAccess)
      requires ctx.Valid() && WritesScalar(op)
      modifies ctx.state.Repr()
      ensures ctx.state.View() == BodyRegs(old(ctx.state.View()), ctx.memory, op, inst)
      ensures value == ScalarValue(old(ctx.state.View()), ctx.memory, op, inst)
      ensures access == if op.Lwi? then Load(LoadAddress(old(ctx.state.View()), inst), value) else NoAccess
    {
      value, access := ComputeScalar(op, inst);
      ctx.state.WriteScalarDestination(OperandAt(inst.data.dsts, 0), value);
      ctx.state.pc := inst.nextPc;
    }

    method ExecuteStore(inst: Inst) returns (access: MemoryAccess)
      requires ctx.Valid()
      modifies ctx.Repr()
      ensures
        var m := old(ctx.Snapshot());
        && ctx.Snapshot() == BodyOf(m, Swi, inst)
        && access == Store(StoreAddress(m.regs, inst), ReadGpr(m.regs, OperandAt(inst.data.srcs, 0)) % TWO_32)
    {
      hide StoreBytes, BytesOf, ReadGpr, ScalarValue, WriteScalar, Copies, CopyUpTo, SignedAny, FromNat;
      var srcs := inst.data.srcs;
      var value, base := ctx.state.Gpr(OperandAt(srcs, 0)), ctx.state.Gpr(OperandAt(srcs, 1));
      var addr := Address(base, inst);
      ctx.Write32(addr, value % TWO_32);
      access := Store(addr, value % TWO_32);
      ctx.state.SetPc(inst.nextPc);
    }

    /** MCOPY and MSET. */
    method ExecuteBytes(op: Opcode, inst: Inst)
      requires ctx.Valid() && op in {Mcopy, Mset}
      modifies ctx.Repr()
      ensures ctx.Snapshot() == BodyOf(old(ctx.Snapshot()), op, inst)
    {
      hide Finish, StoreBytes, CopyUpTo, ReadGpr, ScalarValue, WriteScalar, Copies;
      var srcs := inst.data.srcs;
      var a, b := ctx.state.Gpr(OperandAt(srcs, 0)), ctx.state.Gpr(OperandAt(srcs, 1));
      var n := ctx.state.Gpr(OperandAt(srcs, 2));
      if op.Mcopy? {
        ctx.CopyLoop(a, b, n);
      } else {
        ctx.SetLoop(a, b % 256, n);
      }
      ctx.state.SetPc(inst.nextPc);
    }

    /** The branch of one instruction, and what it adds to the record. */
    method ExecuteBody(op: Opcode, inst: Inst, begun: Record) returns (record: Record)
      requires ctx.Valid() && !op.Unsupported?
      requires begun.dst0Data == 0 && begun.memory == NoAccess
      modifies ctx.Repr()
      ensures
        var m := old(ctx.Snapshot());
        && ctx.Snapshot() == BodyOf(m, op, inst)
        && record == Annotate(begun, m.regs, m.memory, op, inst)
    {
      hide ScalarValue, Finish, StoreBytes, CopyUpTo, BytesOf, ReadGpr, WriteScalar, SetcHolds, Target;
      hide UnsignedAny, SignedAny;
      record := begun;
      if WritesScalar(op) {
        var value, access := ExecuteScalar(op, inst);
        record := record.(dst0Data := value, memory := access);
      } else if op.Swi? {
        var access := ExecuteStore(inst);
        record := record.(memory := access);
      } else if op in {Mcopy, Mset} {
        ExecuteBytes(op, inst);
      } else if op in {BstartStd, BstartVpar, BstartVseq, Bstart, Bstop} {
        ctx.state.ExecuteBlock(op, inst, ctx.memory);
      } else {
        ctx.state.ExecuteControl(op, inst, ctx.memory);
        if op.BText? {
          record := record.(blockKind := Tlsu);
        }
      }
    }

    method Execute(packet: Minst)
      requires ctx.Valid()
      modifies ctx.Repr()
      ensures ctx.Snapshot() == ExecuteOf(old(ctx.Snapshot()), old(Seen(packet)))
    {
      hide BodyOf, Annotate;
      var inst := Seen(packet);
      var op := OpcodeOf(Mnemonic(inst));
      if op.Unsupported? {
        ctx.RequestTerminate(1, "unsupported_instruction:" + Mnemonic(inst));
        return;
      }
      var record := PlainRecord(ctx.cycle, inst, ResolveBlockKind(op, ctx.state.blockKind));
      ctx.state.Begin(op, inst);
      record := ExecuteBody(op, inst, record);
      ctx.AppendRecord(record);
    }

    method Step(stop: W.Option<u64>) returns (running: bool)
      requires ctx.Valid()
      modifies ctx.Repr()
      ensures ctx.Snapshot() == StepOf(table, old(ctx.Snapshot()), stop)
      ensures running == !ctx.terminated
    {
      hide ExecuteOf, FetchOf;
      if ctx.terminated {
        return false;
      }
      if stop.Some? && ctx.state.pc == stop.value {
        ctx.RequestTerminate(ctx.exitCode, "stop_pc");
        return false;
      }
      var inst := FetchDecode();
      if inst.None? {
        ctx.RequestTerminate(1, "fetch_decode_failed");
        return false;
      }
      ExecuteKeepsCycle(ctx.Snapshot(), Seen(inst.value));
      Execute(inst.value);
      ctx.cycle := (ctx.cycle + 1) % TWO_64;
      return !ctx.terminated;
    }

    method Run(stop: W.Option<u64>, maxCycles: u64)
      requires ctx.Valid()
      modifies ctx.Repr()
      ensures ctx.Snapshot() == RunOf(table, old(ctx.Snapshot()), stop, maxCycles)
    {
      while !ctx.terminated
        invariant RunOf(table, ctx.Snapshot(), stop, maxCycles) == RunOf(table, old(ctx.Snapshot()), stop, maxCycles)
        decreases CyclesLeft(ctx.Snapshot(), maxCycles), !ctx.terminated
      {
        if ctx.cycle >= maxCycles {
          ctx.RequestTerminate(ctx.exitCode, "max_cycles");
          break;
        }
        StepCycle(table, ctx.Snapshot(), stop, maxCycles);
        var running := Step(stop);
        if !running {
          break;
        }
      }
    }
  }
}
