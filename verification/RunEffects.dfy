/** How instructions, steps and runs end, what is fetched, and what a load or a reset leaves. */
module RunEffects {
  import opened Words
  import W = Wrappers
  import opened CodecTables
  import opened Codec
  import opened ByteMemory
  import opened Machines
  import opened MemoryNumbers
  import opened ExecutorMeaning
  import opened InstructionEffects

  // ---------- Ends ----------

  /** The run has ended with this code and reason, and nothing else has changed. */
  predicate Ended(m: Machine, m': Machine, code: int, reason: string) {
    && m'.terminated && m'.exitCode == code && m'.lastError == reason
    && m'.regs == m.regs && m'.memory == m.memory && m'.committed == m.committed
    && m'.lastCommitted == m.lastCommitted && m'.cycle == m.cycle && m'.program == m.program
  }

  /** An instruction that is not implemented ends the run with code 1 and does nothing else. */
  lemma {:induction false} UnsupportedEffect(m: Machine, inst: Inst)
    requires OpcodeOf(Mnemonic(inst)) == Unsupported
    ensures Ended(m, ExecuteOf(m, inst), 1, "unsupported_instruction:" + Mnemonic(inst))
  {
    hide OpcodeOf, Mnemonic;
  }

  /** The ways a step ends without an instruction. */
  lemma {:induction false} StepEnds(t: Table, m: Machine, stop: W.Option<u64>)
    ensures m.terminated ==> StepOf(t, m, stop) == m
    ensures !m.terminated && stop == W.Some(m.regs.pc) ==> Ended(m, StepOf(t, m, stop), m.exitCode, "stop_pc")
    ensures !m.terminated && stop != W.Some(m.regs.pc)
            && FetchOf(t, m.memory, m.regs.pc, (m.regs.insnCount + 1) % TWO_64).None? ==>
              Ended(m, StepOf(t, m, stop), 1, "fetch_decode_failed")
  {
    hide FetchOf, ExecuteOf;
  }

  lemma {:induction false} RunEnds(t: Table, m: Machine, stop: W.Option<u64>, maxCycles: u64)
    ensures m.terminated ==> RunOf(t, m, stop, maxCycles) == m
    ensures !m.terminated && m.cycle >= maxCycles ==>
              Ended(m, RunOf(t, m, stop, maxCycles), m.exitCode, "max_cycles")
  {
    hide StepOf;
  }

  /** What the test finisher makes of a 32-bit store: the low half is the status, the high half the code. */
  lemma {:induction false} FinisherEffect(m: Machine, inst: Inst, a: u64, b: u64, v: int)
    requires Mnemonic(inst) == "SWI" && Reads(m.regs, inst.data.srcs, 0, a) && Reads(m.regs, inst.data.srcs, 1, b)
    requires Signed(inst.data.fields, ["simm", "simm12"], v)
    ensures
      var m', low, high := ExecuteOf(m, inst), a % 0x1_0000, a / 0x1_0000 % 0x1_0000;
      var code := if high == 0 then 1 else high;
      var heard := (b + 4 * v) % TWO_64 == 0x1000_9000;
      && (heard && low == 0x5555 ==> m'.terminated && m'.exitCode == 0 && m'.lastError == "finisher_pass")
      && (heard && low == 0x3333 ==> m'.terminated && m'.exitCode == code && m'.lastError == "finisher_fail")
      && (heard && low == 0x7777 ==> m'.terminated && m'.exitCode == code && m'.lastError == "finisher_reset")
      && (!heard || low !in {0x5555, 0x3333, 0x7777} ==>
            m'.terminated == m.terminated && m'.exitCode == m.exitCode && m'.lastError == m.lastError)
  {
    hide OpcodeOf, Reads, ReadGpr, BeginRegs, Signed, Address, BodyMemory, BodyRegs, RecordOf;
    OtherOpcodes();
    BegunReads(m.regs, Opcode.Swi, inst);
    ReadsMeaning(m.regs, inst.data.srcs, 0);
    ReadsMeaning(m.regs, inst.data.srcs, 1);
    AddressMeaning(b, inst, v);
    Halves(a);
  }

  lemma {:induction false} Halves(a: nat)
    ensures a % TWO_32 % 0x1_0000 == a % 0x1_0000 && a % TWO_32 / 0x1_0000 == a / 0x1_0000 % 0x1_0000
  {
  }

  // ---------- Fetching ----------

  /** A fetched packet: its length by the low bits of the first byte, all its bytes mapped, and the decoded
      word is the little-endian number of these bytes. */
  lemma {:induction false} FetchMeaning(t: Table, m: Memory, pc: u64, uid: u64)
    ensures
      var fetched := FetchOf(t, m, pc, uid);
      fetched.Some? ==>
        exists n, w: Word ::
          && n in {2, 4, 6, 8} && Mapped(m, pc, n) && pc in m
          && (n == 2 <==> m[pc] % 2 == 0 && m[pc] % 16 != 14) && (n == 6 <==> m[pc] % 16 == 14)
          && (n == 8 <==> m[pc] % 16 == 15)
          && ToNat(w) == LittleEndian(ReadBytes(m, pc, n).value)
          && fetched.value == Inst(uid, pc, (pc + n) % TWO_64, DecodedWord(t, w, 8 * n))
          && fetched.value.data.decodeStatus == Ok
  {
    hide DecodedWord, Packed, ToNat, LittleEndian;
    var fetched := FetchOf(t, m, pc, uid);
    if fetched.Some? {
      assert Offset(pc, 0) == pc;
      var n := FetchLength(m[pc]);
      var bytes := ReadBytes(m, pc, n).value;
      PackedNumber(bytes);
      var w := Packed(bytes);
      assert fetched.value == Inst(uid, pc, (pc + n) % TWO_64, DecodedWord(t, w, 8 * n));
    }
  }

  /** What makes a fetch fail: the first two bytes or the rest are not mapped, or the word does not decode. */
  lemma {:induction false} FetchFails(t: Table, m: Memory, pc: u64, uid: u64)
    ensures FetchOf(t, m, pc, uid).None? <==>
            !Mapped(m, pc, 2) || !Mapped(m, pc, FetchLength(m[Offset(pc, 0)]))
            || DecodedWord(t, Packed(ReadBytes(m, pc, FetchLength(m[Offset(pc, 0)])).value),
                           8 * FetchLength(m[Offset(pc, 0)])).decodeStatus != Ok
  {
    hide DecodedWord, Packed;
  }

  // ---------- Loads and resets ----------

  /** Registers as a load leaves them. */
  predicate Cleared(r: Regs, entry: u64) {
    && (forall k :: 0 <= k < 24 ==> r.gpr[k] == 0) && (forall k :: 0 <= k < 4 ==> r.tq[k] == 0 && r.uq[k] == 0)
    && (forall ring, k :: 0 <= ring < 16 && 0 <= k < 4096 ==> r.ssrAcr[ring][k] == 0)
    && r.acr == 0 && r.tgt == 0 && r.carg == 0 && r.brtype == 0 && r.blocktype == 0 && r.bpc == 0
    && r.insnPcNext == 0 && r.insnCount == 0 && r.blockKind == Scalar && r.laneId == -1 && r.pc == entry
  }

  lemma {:induction false} LoadEffect(m: Machine, image: Image)
    ensures
      var m' := LoadOf(m, image);
      && Cleared(m'.regs, image.entryPoint) && m'.committed == [] && m'.lastCommitted.None?
      && m'.program == W.Some(image) && m'.cycle == m.cycle && m'.exitCode == m.exitCode
      && m'.terminated == m.terminated && m'.lastError == m.lastError
  {
  }

  lemma {:induction false} ResetEffect(m: Machine)
    ensures
      var m' := ResetOf(m);
      && Cleared(m'.regs, if m.program.Some? then m.program.value.entryPoint else 0)
      && m'.memory == (if m.program.Some? then LoadSections(m.program.value.sections) else map[])
      && m'.committed == [] && m'.lastCommitted.None? && m'.program == m.program
      && m'.cycle == 0 && m'.exitCode == 0 && !m'.terminated && m'.lastError == ""
  {
  }
}
