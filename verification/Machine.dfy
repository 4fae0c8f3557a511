/** The reference executor's machine as a value: what one step, and a whole run, does to it. */
module Machines {
  import opened Words
  import W = Wrappers
  import opened CodecTables
  import opened Codec
  import opened ByteMemory

  // ---------- State ----------

  datatype BlockKind = Scalar | Vpar | Vseq | Tepl | Cube | Tlsu | Sys

  function Zeros(n: nat): (r: seq<u64>)
    ensures |r| == n && forall k :: 0 <= k < n ==> r[k] == 0
  {
    seq(n, (i: int) => 0)
  }

  type Gprs = s: seq<u64> | |s| == 24 witness Zeros(24)
  type ShiftQueue = s: seq<u64> | |s| == 4 witness Zeros(4)
  type SsrBank = s: seq<u64> | |s| == 0x1000 witness Zeros(0x1000)

  function ZeroBanks(n: nat): (r: seq<SsrBank>)
    ensures |r| == n
  {
    seq(n, (i: int) => Zeros(0x1000))
  }

  type SsrBanks = s: seq<SsrBank> | |s| == 16 witness ZeroBanks(16)
  type Acr = n: nat | n < 16

  /** The part of `LinxState` the executor reads or writes. */
  datatype Regs = Regs(
    gpr: Gprs, tq: ShiftQueue, uq: ShiftQueue, ssrAcr: SsrBanks, acr: Acr,
    tgt: u64, carg: u32, brtype: u32, blocktype: u32, bpc: u64,
    insnPcNext: u64, pc: u64, insnCount: u64, blockKind: BlockKind, laneId: int)

  function ResetRegs(): Regs {
    Regs(Zeros(24), Zeros(4), Zeros(4), ZeroBanks(16), 0, 0, 0, 0, 0, 0, 0, 0, 0, Scalar, -1)
  }

  datatype Section = Section(address: u64, bytes: seq<u8>)

  datatype Image = Image(entryPoint: u64, sections: seq<Section>)

  datatype MemoryAccess = NoAccess | Load(addr: u64, rdata: u64) | Store(addr: u64, wdata: u64)

  /** A committed record; texts are kept to the 31 characters of the record's buffers. */
  datatype Record = Record(
    cycle: u64, pc: u64, nextPc: u64, insn: Word, len: nat, laneId: int,
    mnemonic: string, formId: string, blockKind: BlockKind,
    src0: W.Option<Operand>, src1: W.Option<Operand>, dst0: W.Option<Operand>, dst0Data: u64,
    memory: MemoryAccess)

  datatype Machine = Machine(
    regs: Regs, memory: Memory, committed: seq<Record>, lastCommitted: W.Option<Record>,
    cycle: u64, exitCode: int, terminated: bool, lastError: string, program: W.Option<Image>)

  // ---------- Instructions ----------

  /** A fetched packet: what the executor reads of a `Minst`. */
  datatype Inst = Inst(uid: u64, pc: u64, nextPc: u64, data: Decoded)

  function Mnemonic(inst: Inst): string {
    if inst.data.form.None? then "" else inst.data.form.value.mnemonic
  }

  predicate Contains(text: string, needle: string) {
    exists k :: 0 <= k <= |text| && StartsWith(text[k..], needle)
  }

  predicate Direct(inst: Inst) {
    inst.data.form.Some? && Contains(inst.data.form.value.asmTemplate, "DIRECT")
  }

  datatype Opcode =
    | BstartStd | BstartVpar | BstartVseq | Bstart | Bstop
    | Movi | Movr | Lui | HlLui | HlLiu | HlLis | Addi | Lwi | Swi
    | SetcNe | SetcLtu | Ssrset | Mcopy | Mset | TileHeader(kind: BlockKind) | BText | Unsupported

  predicate IsCube(name: string) {
    name in {"BSTART.TMATMUL", "BSTART.TMATMUL.ACC", "BSTART.TMATMUL.BIAS", "BSTART.TMATMULMX",
             "BSTART.TMATMULMX.ACC", "BSTART.TMATMULMX.BIAS", "BSTART.TGEMV", "BSTART.TGEMV.ACC",
             "BSTART.TGEMV.BIAS", "BSTART.TGEMVMX", "BSTART.TGEMVMX.ACC", "BSTART.TGEMVMX.BIAS"}
  }

  predicate IsTlsu(name: string) {
    name in {"BSTART.TLOAD", "BSTART.TSTORE", "BSTART.TMOV", "BSTART.TPREFETCH", "BSTART.MGATHER",
             "BSTART.MSCATTER", "BSTART.MGATHER.MASK", "BSTART.MSCATTER.MASK", "BSTART.MGATHER.CAS",
             "BSTART.GMOV"}
  }

  function ScalarOpcode(name: string): Opcode {
    if name == "C.MOVI" then Movi
    else if name == "C.MOVR" then Movr
    else if name == "LUI" then Lui
    else if name == "HL.LUI" then HlLui
    else if name == "HL.LIU" then HlLiu
    else if name == "HL.LIS" then HlLis
    else if name == "ADDI" then Addi
    else if name == "LWI" then Lwi
    else if name == "SWI" then Swi
    else if name == "SETC.NE" then SetcNe
    else if name == "SETC.LTU" then SetcLtu
    else if name == "SSRSET" then Ssrset
    else if name == "MCOPY" then Mcopy
    else if name == "MSET" then Mset
    else Unsupported
  }

  /** The instructions with executor semantics, by mnemonic. */
  function OpcodeOf(name: string): Opcode {
    if name == "C.BSTART.STD" then BstartStd
    else if name == "C.BSTART.VPAR" then BstartVpar
    else if name == "C.BSTART.VSEQ" then BstartVseq
    else if name == "C.BSTART" then Bstart
    else if name == "C.BSTOP" then Bstop
    else if name == "BSTART.TEPL" then TileHeader(Tepl)
    else if IsCube(name) then TileHeader(Cube)
    else if IsTlsu(name) then TileHeader(Tlsu)
    else if name == "B.TEXT" then BText
    else ScalarOpcode(name)
  }

  /** `ResolveBlockKind`, for the instructions that are implemented. */
  function ResolveBlockKind(op: Opcode, current: BlockKind): BlockKind {
    match op
    case BstartVpar => Vpar
    case BstartVseq => Vseq
    case TileHeader(kind) => kind
    case Ssrset => Sys
    case _ => current
  }

  function ResolveLaneId(kind: BlockKind): int {
    if kind == Vpar || kind == Vseq then 0 else -1
  }

  // ---------- Operands ----------

  function AsU64(v: int): u64 {
    v % TWO_64
  }

  function OperandAt(ops: seq<Operand>, k: nat): u64 {
    if k < |ops| then ops[k].value else 0
  }

  function SignedAny(fields: seq<DecodedField>, names: seq<string>): i64 {
    if names == [] then 0
    else
      var f := FindNamed(fields, DecodedName, names[0]);
      if f.Some? then f.value.value else SignedAny(fields, names[1..])
  }

  function UnsignedAny(fields: seq<DecodedField>, names: seq<string>): u64 {
    if names == [] then 0
    else
      var f := FindNamed(fields, DecodedName, names[0]);
      if f.Some? then UnsignedValue(f.value) else UnsignedAny(fields, names[1..])
  }

  function ReadGpr(r: Regs, idx: u64): u64 {
    if 0 < idx < 24 then r.gpr[idx]
    else if 24 <= idx < 28 then r.tq[idx - 24]
    else if 28 <= idx < 32 then r.uq[idx - 28]
    else 0
  }

  /** The newest value in front, the oldest one out. */
  function Pushed(q: ShiftQueue, value: u64): ShiftQueue {
    [value] + q[..3]
  }

  function WriteScalar(r: Regs, idx: u64, value: u64): Regs {
    if idx == 31 then r.(tq := Pushed(r.tq, value))
    else if idx == 30 then r.(uq := Pushed(r.uq, value))
    else if 0 < idx < 24 then r.(gpr := r.gpr[idx := value])
    else r
  }

  // ---------- What one instruction does ----------

  /** The address of an LWI or SWI. */
  function Address(base: u64, inst: Inst): u64 {
    (base + AsU64(SignedAny(inst.data.fields, ["simm", "simm12"])) * 4 % TWO_64) % TWO_64
  }

  function LoadAddress(r: Regs, inst: Inst): u64 {
    Address(ReadGpr(r, OperandAt(inst.data.srcs, 0)), inst)
  }

  function StoreAddress(r: Regs, inst: Inst): u64 {
    Address(ReadGpr(r, OperandAt(inst.data.srcs, 1)), inst)
  }

  function LoadedValue(m: Memory, addr: u64): u64 {
    var w := ReadWord(m, addr, 4);
    AsU64(SignExtend(if w.Some? then w.value else Zero(), 32))
  }

  predicate WritesScalar(op: Opcode) {
    op in {Movi, Movr, Lui, HlLui, HlLiu, HlLis, Addi, Lwi}
  }

  /** The value an instruction with a scalar destination computes. */
  function ScalarValue(r: Regs, m: Memory, op: Opcode, inst: Inst): u64
    requires WritesScalar(op)
  {
    var fields := inst.data.fields;
    match op
    case Movi => AsU64(SignedAny(fields, ["simm5"]))
    case Movr => ReadGpr(r, OperandAt(inst.data.srcs, 0))
    case Lui => AsU64(SignedAny(fields, ["simm20", "imm20", "simm", "imm"])) * 0x1000 % TWO_64
    case HlLui => UnsignedAny(fields, ["imm32", "imm"]) % TWO_32 * TWO_32
    case HlLiu => UnsignedAny(fields, ["uimm32", "imm"]) % TWO_32
    case HlLis => AsU64(SignedAny(fields, ["simm32", "imm"]))
    case Addi =>
      (ReadGpr(r, OperandAt(inst.data.srcs, 0)) +
       AsU64(SignedAny(fields, ["uimm", "uimm12", "simm", "imms", "simm12"]))) % TWO_64
    case Lwi => LoadedValue(m, LoadAddress(r, inst))
  }

  predicate SetcHolds(r: Regs, op: Opcode, inst: Inst) {
    var lhs, rhs := ReadGpr(r, OperandAt(inst.data.srcs, 0)), ReadGpr(r, OperandAt(inst.data.srcs, 1));
    if op.SetcNe? then lhs != rhs else lhs < rhs
  }

  function Target(r: Regs, inst: Inst): u64 {
    AsU64(r.pc + 2 * SignedAny(inst.data.fields, ["simm12"]))
  }

  /** The bookkeeping at the head of `Execute`. */
  function BeginRegs(r: Regs, op: Opcode, inst: Inst): Regs {
    var kind := ResolveBlockKind(op, r.blockKind);
    r.(insnPcNext := inst.nextPc, insnCount := (r.insnCount + 1) % TWO_64,
       blockKind := kind, laneId := ResolveLaneId(kind))
  }

  function SetSsr(r: Regs, id: u64, value: u64): Regs {
    if id < 0x1000 then r.(ssrAcr := r.ssrAcr[r.acr := r.ssrAcr[r.acr][id := value]]) else r
  }

  function BodyRegs(r: Regs, m: Memory, op: Opcode, inst: Inst): Regs {
    match op
    case BstartStd =>
      r.(bpc := r.pc, brtype := UnsignedAny(inst.data.fields, ["BrType"]) % TWO_32, blocktype := 0,
         blockKind := Scalar, laneId := -1, pc := inst.nextPc)
    case BstartVpar => r.(bpc := r.pc, blockKind := Vpar, laneId := 0, pc := inst.nextPc)
    case BstartVseq => r.(bpc := r.pc, blockKind := Vseq, laneId := 0, pc := inst.nextPc)
    case Bstart =>
      r.(tgt := Target(r, inst), bpc := r.pc, pc := inst.nextPc, blocktype := if Direct(inst) then 1 else 2)
    case Bstop =>
      r.(pc := if r.blocktype == 1 || (r.blocktype == 2 && r.carg != 0) then r.tgt else inst.nextPc,
         blocktype := 0, carg := 0)
    case SetcNe => r.(carg := if SetcHolds(r, op, inst) then 1 else 0, pc := inst.nextPc)
    case SetcLtu => r.(carg := if SetcHolds(r, op, inst) then 1 else 0, pc := inst.nextPc)
    case Ssrset =>
      SetSsr(r, UnsignedAny(inst.data.fields, ["SSR_ID"]), ReadGpr(r, OperandAt(inst.data.srcs, 0)))
        .(pc := inst.nextPc)
    case BText => r.(blockKind := Tlsu, pc := inst.nextPc)
    case _ =>
      if WritesScalar(op) then
        WriteScalar(r, OperandAt(inst.data.dsts, 0), ScalarValue(r, m, op, inst)).(pc := inst.nextPc)
      else r.(pc := inst.nextPc)
  }

  function BodyMemory(r: Regs, m: Memory, op: Opcode, inst: Inst): Memory {
    var a, b, n := ReadGpr(r, OperandAt(inst.data.srcs, 0)), ReadGpr(r, OperandAt(inst.data.srcs, 1)),
                   ReadGpr(r, OperandAt(inst.data.srcs, 2));
    match op
    case Swi => StoreBytes(m, StoreAddress(r, inst), BytesOf(FromNat(a % TWO_32, 64), 4))
    case Mcopy => CopyUpTo(m, a, b, n)
    case Mset => StoreBytes(m, a, Copies(b % 256, n))
    case _ => m
  }

  function Terminate(m: Machine, code: int, reason: string): Machine {
    m.(terminated := true, exitCode := code, lastError := reason)
  }

  /** The test finisher, woken by a 32-bit store to its address. */
  function Finish(m: Machine, addr: u64, value: u32): Machine {
    var status, code := value % 0x1_0000, value / 0x1_0000;
    if addr != 0x10009000 then m
    else if status == 0x5555 then Terminate(m, 0, "finisher_pass")
    else if status == 0x3333 then Terminate(m, if code == 0 then 1 else code, "finisher_fail")
    else if status == 0x7777 then Terminate(m, if code == 0 then 1 else code, "finisher_reset")
    else m
  }

  function Text31(s: string): string {
    if |s| <= 31 then s else s[..31]
  }

  function OptionalAt(ops: seq<Operand>, k: nat): W.Option<Operand> {
    if k < |ops| then W.Some(ops[k]) else W.None
  }

  /** `MakeMinstRecord`. */
  function PlainRecord(cycle: u64, inst: Inst, kind: BlockKind): Record {
    Record(cycle, inst.pc, inst.nextPc, inst.data.rawBits, inst.data.lengthBits, ResolveLaneId(kind),
           Text31(Mnemonic(inst)), if inst.data.form.None? then "" else Text31(inst.data.form.value.uid), kind,
           OptionalAt(inst.data.srcs, 0), OptionalAt(inst.data.srcs, 1), OptionalAt(inst.data.dsts, 0), 0, NoAccess)
  }

  /** What the body of an instruction adds to its record; `r` are the registers once it has begun. */
  function Annotate(record: Record, r: Regs, m: Memory, op: Opcode, inst: Inst): Record {
    match op
    case BText => record.(blockKind := Tlsu)
    case Swi => record.(memory := Store(StoreAddress(r, inst), ReadGpr(r, OperandAt(inst.data.srcs, 0)) % TWO_32))
    case Lwi =>
      var value := ScalarValue(r, m, op, inst);
      record.(dst0Data := value, memory := Load(LoadAddress(r, inst), value))
    case _ => if WritesScalar(op) then record.(dst0Data := ScalarValue(r, m, op, inst)) else record
  }

  function RecordOf(r: Regs, m: Memory, cycle: u64, op: Opcode, inst: Inst): Record {
    var begun := BeginRegs(r, op, inst);
    Annotate(PlainRecord(cycle, inst, begun.blockKind), begun, m, op, inst)
  }

  function Append(m: Machine, record: Record): Machine {
    m.(committed := m.committed + [record], lastCommitted := W.Some(record))
  }

  /** The body of an instruction, on a machine where it has begun. */
  function BodyOf(m: Machine, op: Opcode, inst: Inst): Machine {
    var m' := m.(regs := BodyRegs(m.regs, m.memory, op, inst), memory := BodyMemory(m.regs, m.memory, op, inst));
    if op.Swi? then Finish(m', StoreAddress(m.regs, inst), ReadGpr(m.regs, OperandAt(inst.data.srcs, 0)) % TWO_32)
    else m'
  }

  /** What `Execute` does to the machine: everything of an implemented instruction, or only the
      termination request of an unimplemented one. */
  function ExecuteOf(m: Machine, inst: Inst): Machine {
    var op := OpcodeOf(Mnemonic(inst));
    if op.Unsupported? then Terminate(m, 1, "unsupported_instruction:" + Mnemonic(inst))
    else
      var begun := m.(regs := BeginRegs(m.regs, op, inst));
      Append(BodyOf(begun, op, inst), RecordOf(m.regs, m.memory, m.cycle, op, inst))
  }

  // ---------- Fetch ----------

  /** The length in bytes, from the low nibble of the first byte. */
  function FetchLength(low: u8): (n: nat)
    ensures n == 2 <==> low % 2 == 0 && low % 16 != 14
    ensures n == 6 <==> low % 16 == 14
    ensures n == 8 <==> low % 16 == 15
    ensures n in {2, 4, 6, 8}
  {
    if low % 2 == 0 then (if low % 16 == 14 then 6 else 2)
    else if low % 16 == 15 then 8 else 4
  }

  ghost function FetchOf(t: Table, m: Memory, pc: u64, uid: u64): W.Option<Inst> {
    if !Mapped(m, pc, 2) then W.None
    else
      assert Offset(pc, 0) in m;
      var n := FetchLength(m[Offset(pc, 0)]);
      var w := ReadWord(m, pc, n);
      if w.None? then W.None
      else
        var d := DecodedWord(t, w.value, 8 * n);
        if d.decodeStatus != CodecStatus.Ok then W.None else W.Some(Inst(uid, pc, Offset(pc, n), d))
  }

  // ---------- Steps and runs ----------

  /** The instruction a step would execute, if it gets that far. */
  ghost function NextInst(t: Table, m: Machine, stop: W.Option<u64>): W.Option<Inst> {
    if m.terminated || stop == W.Some(m.regs.pc) then W.None
    else FetchOf(t, m.memory, m.regs.pc, (m.regs.insnCount + 1) % TWO_64)
  }

  ghost function StepOf(t: Table, m: Machine, stop: W.Option<u64>): Machine {
    if m.terminated then m
    else if stop == W.Some(m.regs.pc) then Terminate(m, m.exitCode, "stop_pc")
    else
      match NextInst(t, m, stop)
      case None => Terminate(m, 1, "fetch_decode_failed")
      case Some(inst) => ExecuteOf(m, inst).(cycle := (m.cycle + 1) % TWO_64)
  }

  lemma {:induction false} ExecuteKeepsCycle(m: Machine, inst: Inst)
    ensures ExecuteOf(m, inst).cycle == m.cycle && ExecuteOf(m, inst).program == m.program
  {
    hide BodyRegs, BodyMemory, RecordOf, BeginRegs;
  }

  /** The cycles a bounded run has left. */
  function CyclesLeft(m: Machine, maxCycles: u64): nat {
    if m.terminated || m.cycle >= maxCycles then 0 else maxCycles - m.cycle
  }

  /** A step that does not end the run counts one cycle. */
  lemma {:induction false} StepCycle(t: Table, m: Machine, stop: W.Option<u64>, maxCycles: u64)
    requires !m.terminated
    ensures StepOf(t, m, stop).terminated || StepOf(t, m, stop).cycle == (m.cycle + 1) % TWO_64
    ensures m.cycle < maxCycles ==> CyclesLeft(StepOf(t, m, stop), maxCycles) < CyclesLeft(m, maxCycles)
  {
    hide ExecuteOf, FetchOf;
    ModUnique(m.cycle + 1, if m.cycle + 1 < TWO_64 then 0 else 1, if m.cycle + 1 < TWO_64 then m.cycle + 1 else 0);
    var inst := NextInst(t, m, stop);
    if inst.Some? {
      ExecuteKeepsCycle(m, inst.value);
    }
  }

  /** `Run` with a cycle bound. */
  ghost function RunOf(t: Table, m: Machine, stop: W.Option<u64>, maxCycles: u64): Machine
    decreases CyclesLeft(m, maxCycles)
  {
    if m.terminated then m
    else if m.cycle >= maxCycles then Terminate(m, m.exitCode, "max_cycles")
    else
      StepCycle(t, m, stop, maxCycles);
      RunOf(t, StepOf(t, m, stop), stop, maxCycles)
  }

  // ---------- Loading ----------

  function LoadSections(sections: seq<Section>): Memory {
    if sections == [] then map[]
    else
      var n := |sections| - 1;
      StoreBytes(LoadSections(sections[..n]), sections[n].address, sections[n].bytes)
  }

  /** `LoadProgram`: new registers and memory; the cycle count and the termination flag stay. */
  function LoadOf(m: Machine, image: Image): Machine {
    m.(regs := ResetRegs().(pc := image.entryPoint), memory := LoadSections(image.sections),
       committed := [], lastCommitted := W.None, program := W.Some(image))
  }

  function EmptyMachine(program: W.Option<Image>): Machine {
    Machine(ResetRegs(), map[], [], W.None, 0, 0, false, "", program)
  }

  function ResetOf(m: Machine): Machine {
    var clean := EmptyMachine(m.program);
    if m.program.None? then clean else LoadOf(clean, m.program.value)
  }
}
