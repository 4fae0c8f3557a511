/** Block, condition and system instructions by mnemonic, the record of an instruction, and how steps,
    runs, loads and resets end or begin. */
module ControlEffects {
  import opened Words
  import W = Wrappers
  import opened CodecTables
  import opened ByteMemory
  import opened Machines
  import opened ExecutorMeaning
  import opened InstructionEffects

  // ---------- Control ----------

  /** No register, queue or byte changes, and the record has no destination value. */
  predicate OnlyControl(m: Machine, inst: Inst) {
    var m' := ExecuteOf(m, inst);
    && SameScalars(m.regs, m'.regs) && Counted(m.regs, m'.regs, inst) && m'.memory == m.memory
    && m'.terminated == m.terminated && Commits(m, inst, 0, NoAccess)
  }

  predicate IsControl(op: Opcode) {
    !op.Unsupported? && !WritesScalar(op) && op !in {Opcode.Swi, Opcode.Mcopy, Opcode.Mset}
  }

  lemma {:induction false} ControlStep(m: Machine, inst: Inst, op: Opcode)
    requires op == OpcodeOf(Mnemonic(inst)) && IsControl(op)
    ensures OnlyControl(m, inst)
    ensures ExecuteOf(m, inst).regs == BodyRegs(BeginRegs(m.regs, op, inst), m.memory, op, inst)
  {
    hide OpcodeOf, Mnemonic, BeginRegs, SameBlock, ReadGpr, SignedAny, UnsignedAny, Target, Direct, SetcHolds;
    hide ScalarValue, WriteScalar, Counted, SameScalars;
    BegunReads(m.regs, op, inst);
    var begun := BeginRegs(m.regs, op, inst);
    ControlRegs(begun, m.memory, op, inst);
    ThroughControl(m.regs, begun, BodyRegs(begun, m.memory, op, inst), inst);
    hide BodyRegs;
  }

  lemma {:induction false} ControlRegs(r: Regs, m: Memory, op: Opcode, inst: Inst)
    requires IsControl(op)
    ensures
      var r' := BodyRegs(r, m, op, inst);
      SameScalars(r, r') && r'.insnPcNext == r.insnPcNext && r'.insnCount == r.insnCount
  {
    hide ReadGpr, SignedAny, UnsignedAny, Target, Direct, SetcHolds, ScalarValue, WriteScalar;
  }

  lemma {:induction false} ThroughControl(r: Regs, begun: Regs, r': Regs, inst: Inst)
    requires SameScalars(r, begun) && Counted(r, begun, inst)
    requires SameScalars(begun, r') && r'.insnPcNext == begun.insnPcNext && r'.insnCount == begun.insnCount
    ensures SameScalars(r, r') && Counted(r, r', inst)
  {
  }

  /** SETC.NE and SETC.LTU set the condition from their two operands and change nothing else. */
  lemma {:induction false} SetcEffect(m: Machine, inst: Inst, a: u64, b: u64)
    requires Mnemonic(inst) in {"SETC.NE", "SETC.LTU"}
    requires Reads(m.regs, inst.data.srcs, 0, a) && Reads(m.regs, inst.data.srcs, 1, b)
    ensures
      var r' := ExecuteOf(m, inst).regs;
      var holds := if Mnemonic(inst) == "SETC.NE" then a != b else a < b;
      && OnlyControl(m, inst) && r'.pc == inst.nextPc
      && SameBlock(m.regs, r'.(carg := m.regs.carg)) && r'.carg == (if holds then 1 else 0)
  {
    hide OpcodeOf, Reads, ReadGpr, BeginRegs, OnlyControl, ExecuteOf;
    OtherOpcodes();
    var op := OpcodeOf(Mnemonic(inst));
    BegunReads(m.regs, op, inst);
    ReadsMeaning(m.regs, inst.data.srcs, 0);
    ReadsMeaning(m.regs, inst.data.srcs, 1);
    ControlStep(m, inst, op);
  }

  /** SSRSET sets the numbered system register of the current ring, and none when the number is 4096 or more. */
  lemma {:induction false} SsrsetEffect(m: Machine, inst: Inst, a: u64, id: u64, ring: nat, k: nat)
    requires Mnemonic(inst) == "SSRSET" && Reads(m.regs, inst.data.srcs, 0, a)
    requires Unsigned(inst.data.fields, ["SSR_ID"], id) && ring < 16 && k < 4096
    ensures
      var r' := ExecuteOf(m, inst).regs;
      && OnlyControl(m, inst) && r'.pc == inst.nextPc && SameBlock(m.regs, r'.(ssrAcr := m.regs.ssrAcr))
      && r'.ssrAcr[ring][k] == (if ring == m.regs.acr && k == id then a else m.regs.ssrAcr[ring][k])
  {
    hide OpcodeOf, Reads, ReadGpr, BeginRegs, OnlyControl, ExecuteOf, Unsigned, UnsignedAny;
    OtherOpcodes();
    BegunReads(m.regs, Ssrset, inst);
    ReadsMeaning(m.regs, inst.data.srcs, 0);
    ImmediateMeaning(inst.data.fields, ["SSR_ID"]);
    ControlStep(m, inst, Ssrset);
  }

  // ---------- Blocks ----------

  lemma {:induction false} StdEffect(m: Machine, inst: Inst, u: int)
    requires Mnemonic(inst) == "C.BSTART.STD" && Unsigned(inst.data.fields, ["BrType"], u)
    ensures
      var r' := ExecuteOf(m, inst).regs;
      && OnlyControl(m, inst) && r'.pc == inst.nextPc && r'.bpc == m.regs.pc
      && r'.brtype == u % 0x1_0000_0000 && r'.blocktype == 0 && r'.blockKind == Scalar && r'.laneId == -1
      && r'.tgt == m.regs.tgt && r'.carg == m.regs.carg && r'.ssrAcr == m.regs.ssrAcr && r'.acr == m.regs.acr
  {
    hide OpcodeOf, BeginRegs, OnlyControl, ExecuteOf, Unsigned, UnsignedAny;
    BlockOpcodes();
    BegunReads(m.regs, BstartStd, inst);
    ImmediateMeaning(inst.data.fields, ["BrType"]);
    ControlStep(m, inst, BstartStd);
  }

  lemma {:induction false} VectorBlockEffect(m: Machine, inst: Inst)
    requires Mnemonic(inst) in {"C.BSTART.VPAR", "C.BSTART.VSEQ"}
    ensures
      var r' := ExecuteOf(m, inst).regs;
      && OnlyControl(m, inst) && r'.pc == inst.nextPc && SameBlock(m.regs, r'.(bpc := m.regs.bpc))
      && r'.bpc == m.regs.pc && r'.laneId == 0
      && r'.blockKind == (if Mnemonic(inst) == "C.BSTART.VPAR" then Vpar else Vseq)
  {
    hide OpcodeOf, BeginRegs, OnlyControl, ExecuteOf;
    BlockOpcodes();
    var op := OpcodeOf(Mnemonic(inst));
    BegunReads(m.regs, op, inst);
    ControlStep(m, inst, op);
  }

  /** C.BSTART records its target, and opens a direct block exactly when its template says DIRECT. */
  lemma {:induction false} BstartEffect(m: Machine, inst: Inst, v: int)
    requires Mnemonic(inst) == "C.BSTART" && Signed(inst.data.fields, ["simm12"], v) && inst.data.form.Some?
    ensures
      var r', direct := ExecuteOf(m, inst).regs, Occurs(inst.data.form.value.asmTemplate, "DIRECT");
      && OnlyControl(m, inst) && r'.pc == inst.nextPc && r'.bpc == m.regs.pc
      && r'.tgt == (m.regs.pc + 2 * v) % TWO_64 && r'.blocktype == (if direct then 1 else 2)
      && r'.brtype == m.regs.brtype && r'.carg == m.regs.carg && r'.ssrAcr == m.regs.ssrAcr && r'.acr == m.regs.acr
  {
    hide OpcodeOf, BeginRegs, OnlyControl, ExecuteOf, Signed, SignedAny, Contains, Occurs;
    BlockOpcodes();
    BegunReads(m.regs, Opcode.Bstart, inst);
    ImmediateMeaning(inst.data.fields, ["simm12"]);
    ControlStep(m, inst, Opcode.Bstart);
    ContainsMeaning(inst.data.form.value.asmTemplate, "DIRECT");
  }

  ghost predicate Occurs(text: string, needle: string) {
    exists before: string, after: string :: text == before + needle + after
  }

  lemma {:induction false} ContainsMeaning(text: string, needle: string)
    ensures Contains(text, needle) <==> Occurs(text, needle)
  {
    if k :| 0 <= k <= |text| && StartsWith(text[k..], needle) {
      var rest := text[k..];
      assert rest == needle + rest[|needle|..];
      assert text == text[..k] + needle + rest[|needle|..];
    }
    if before: string, after: string :| text == before + needle + after {
      assert text[|before|..] == needle + after;
      assert StartsWith(text[|before|..], needle);
    }
  }

  /** C.BSTOP goes to the target from a direct block, or from a conditional one whose condition is set. */
  lemma {:induction false} BstopEffect(m: Machine, inst: Inst)
    requires Mnemonic(inst) == "C.BSTOP"
    ensures
      var r, r' := m.regs, ExecuteOf(m, inst).regs;
      var taken := r.blocktype == 1 || (r.blocktype == 2 && r.carg != 0);
      && OnlyControl(m, inst) && r'.pc == (if taken then r.tgt else inst.nextPc)
      && SameBlock(r, r'.(blocktype := r.blocktype, carg := r.carg)) && r'.blocktype == 0 && r'.carg == 0
  {
    hide OpcodeOf, BeginRegs, OnlyControl, ExecuteOf;
    BlockOpcodes();
    BegunReads(m.regs, Opcode.Bstop, inst);
    ControlStep(m, inst, Opcode.Bstop);
  }

  predicate TileName(name: string) {
    name == "BSTART.TEPL" || IsCube(name) || IsTlsu(name) || name == "B.TEXT"
  }

  lemma {:induction false} TileEffect(m: Machine, inst: Inst)
    requires TileName(Mnemonic(inst))
    ensures
      var r' := ExecuteOf(m, inst).regs;
      && OnlyControl(m, inst) && r'.pc == inst.nextPc && SameBlock(m.regs, r')
      && r'.blockKind == (if Mnemonic(inst) == "BSTART.TEPL" then Tepl
                          else if IsCube(Mnemonic(inst)) then Cube else Tlsu)
  {
    hide IsCube, IsTlsu, OnlyControl, ExecuteOf, OpcodeOf, BeginRegs;
    var op := OpcodeOf(Mnemonic(inst));
    TileOp(Mnemonic(inst));
    NotHeader("B.TEXT");
    BegunReads(m.regs, op, inst);
    BegunKind(m.regs, op, inst);
    ControlStep(m, inst, op);
  }

  lemma {:induction false} BegunKind(r: Regs, op: Opcode, inst: Inst)
    ensures BeginRegs(r, op, inst).blockKind == ResolveBlockKind(op, r.blockKind)
    ensures BeginRegs(r, op, inst).laneId == ResolveLaneId(ResolveBlockKind(op, r.blockKind))
  {
  }

  lemma {:induction false} TileOp(name: string)
    requires TileName(name)
    ensures OpcodeOf(name) == if name == "B.TEXT" then BText else if name == "BSTART.TEPL" then TileHeader(Tepl)
                              else if IsCube(name) then TileHeader(Cube) else TileHeader(Tlsu)
  {
    hide ScalarOpcode;
    OtherOpcodes();
  }

  // ---------- Block kind and record ----------

  /** The block kind an instruction announces; most leave the current one. */
  function Announced(name: string, current: BlockKind): BlockKind {
    if name == "C.BSTART.VPAR" then Vpar
    else if name == "C.BSTART.VSEQ" then Vseq
    else if name == "SSRSET" then Sys
    else if name == "BSTART.TEPL" then Tepl
    else if IsCube(name) then Cube
    else if IsTlsu(name) then Tlsu
    else current
  }

  predicate Vector(kind: BlockKind) {
    kind == Vpar || kind == Vseq
  }

  lemma {:induction false} AnnouncedKind(name: string, current: BlockKind)
    requires OpcodeOf(name) != Unsupported
    ensures ResolveBlockKind(OpcodeOf(name), current) == Announced(name, current)
  {
    hide IsCube, IsTlsu;
    if |name| <= 10 {
      NotHeader(name);
    }
    LongNames();
    assert name == "SSRSET" ==> OpcodeOf(name) == Ssrset by {
      OtherOpcodes();
    }
  }

  lemma {:induction false} LongNames()
    ensures !IsCube("C.BSTART.VPAR") && !IsTlsu("C.BSTART.VPAR") && !IsCube("C.BSTART.VSEQ") && !IsTlsu("C.BSTART.VSEQ")
    ensures !IsCube("C.BSTART.STD") && !IsTlsu("C.BSTART.STD")
    ensures !IsCube("BSTART.TEPL") && !IsTlsu("BSTART.TEPL")
    ensures forall name :: IsCube(name) ==> !IsTlsu(name)
  {
  }

  /** The kind in the registers: what the instruction announces, except that C.BSTART.STD resets it and
      B.TEXT makes it tlsu; and the lane, 0 for an announced vector block and -1 otherwise. */
  lemma {:induction false} KindEffect(m: Machine, inst: Inst)
    requires OpcodeOf(Mnemonic(inst)) != Unsupported
    ensures
      var name, r' := Mnemonic(inst), ExecuteOf(m, inst).regs;
      && r'.blockKind == (if name == "C.BSTART.STD" then Scalar else if name == "B.TEXT" then Tlsu
                          else Announced(name, m.regs.blockKind))
      && r'.laneId == (if name != "C.BSTART.STD" && Vector(Announced(name, m.regs.blockKind)) then 0 else -1)
  {
    hide OpcodeOf, Mnemonic, BeginRegs, ReadGpr, SignedAny, UnsignedAny, Target, Direct, SetcHolds, IsCube, IsTlsu;
    hide ScalarValue, WriteScalar, Announced, ResolveBlockKind, BodyMemory, RecordOf;
    var op := OpcodeOf(Mnemonic(inst));
    AnnouncedKind(Mnemonic(inst), m.regs.blockKind);
    BegunKind(m.regs, op, inst);
    KindNames(Mnemonic(inst));
    BodyKind(BeginRegs(m.regs, op, inst), m.memory, op, inst);
    hide BodyRegs;
    AnnouncedVector();
  }

  lemma {:induction false} KindNames(name: string)
    ensures name == "C.BSTART.STD" <==> OpcodeOf(name) == BstartStd
    ensures name == "C.BSTART.VPAR" <==> OpcodeOf(name) == BstartVpar
    ensures name == "C.BSTART.VSEQ" <==> OpcodeOf(name) == BstartVseq
    ensures name == "B.TEXT" <==> OpcodeOf(name) == BText
  {
    hide IsCube, IsTlsu;
    NotHeader("B.TEXT");
  }

  lemma {:induction false} AnnouncedVector()
    ensures forall kind :: Announced("C.BSTART.VPAR", kind) == Vpar && Announced("C.BSTART.VSEQ", kind) == Vseq
  {
  }

  lemma {:induction false} BodyKind(r: Regs, m: Memory, op: Opcode, inst: Inst)
    ensures BodyRegs(r, m, op, inst).blockKind ==
            if op.BstartStd? then Scalar else if op.BstartVpar? then Vpar else if op.BstartVseq? then Vseq
            else if op.BText? then Tlsu else r.blockKind
    ensures BodyRegs(r, m, op, inst).laneId ==
            if op.BstartStd? then -1 else if op.BstartVpar? || op.BstartVseq? then 0 else r.laneId
  {
    hide ReadGpr, SignedAny, UnsignedAny, Target, Direct, SetcHolds, ScalarValue;
  }

  /** Every column of the record of an instruction but its destination value and memory access. */
  lemma {:induction false} RecordEffect(m: Machine, inst: Inst)
    requires OpcodeOf(Mnemonic(inst)) != Unsupported
    ensures |ExecuteOf(m, inst).committed| == |m.committed| + 1
    ensures
      var r := ExecuteOf(m, inst).committed[|m.committed|];
      var name, kind := Mnemonic(inst), Announced(Mnemonic(inst), m.regs.blockKind);
      && r.cycle == m.cycle && r.pc == inst.pc && r.nextPc == inst.nextPc
      && r.insn == inst.data.rawBits && r.len == inst.data.lengthBits
      && r.mnemonic <= name && |r.mnemonic| == (if |name| < 31 then |name| else 31)
      && r.blockKind == (if name == "B.TEXT" then Tlsu else kind) && r.laneId == (if Vector(kind) then 0 else -1)
      && r.src0 == (if |inst.data.srcs| > 0 then W.Some(inst.data.srcs[0]) else W.None)
      && r.src1 == (if |inst.data.srcs| > 1 then W.Some(inst.data.srcs[1]) else W.None)
      && r.dst0 == (if |inst.data.dsts| > 0 then W.Some(inst.data.dsts[0]) else W.None)
  {
    hide OpcodeOf, Mnemonic, BeginRegs, BodyRegs, BodyMemory, BodyOf, ScalarValue, Announced, ResolveBlockKind;
    hide IsCube, IsTlsu, StoreAddress, LoadAddress, ReadGpr;
    var op := OpcodeOf(Mnemonic(inst));
    AnnouncedKind(Mnemonic(inst), m.regs.blockKind);
    BegunKind(m.regs, op, inst);
    KindNames(Mnemonic(inst));
    BodyRecords(m.(regs := BeginRegs(m.regs, op, inst)), op, inst);
  }

  lemma {:induction false} BodyRecords(m: Machine, op: Opcode, inst: Inst)
    ensures BodyOf(m, op, inst).committed == m.committed
  {
    hide BodyRegs, BodyMemory, StoreAddress, ReadGpr;
  }

  /** The same of the form's identifier. */
  lemma {:induction false} RecordForm(m: Machine, inst: Inst)
    requires OpcodeOf(Mnemonic(inst)) != Unsupported && inst.data.form.Some?
    ensures |ExecuteOf(m, inst).committed| == |m.committed| + 1
    ensures
      var id, uid := ExecuteOf(m, inst).committed[|m.committed|].formId, inst.data.form.value.uid;
      id <= uid && |id| == if |uid| < 31 then |uid| else 31
  {
    hide OpcodeOf, Mnemonic, BeginRegs, BodyRegs, BodyMemory, BodyOf, ScalarValue, ResolveBlockKind;
    hide StoreAddress, LoadAddress, ReadGpr;
    var op := OpcodeOf(Mnemonic(inst));
    BodyRecords(m.(regs := BeginRegs(m.regs, op, inst)), op, inst);
  }
}
