/** Properties of whole runs of the reference executor. */
module ExecutorTheorems {
  import opened Words
  import W = Wrappers
  import opened CodecTables
  import opened Codec
  import opened ByteMemory
  import opened Machines

  // ---------- Runs and their committed instructions ----------

  /** A committed instruction with the registers and memory it found. */
  datatype Commit = Commit(op: Opcode, inst: Inst, before: Regs, memory: Memory)

  function Begun(c: Commit): Regs {
    BeginRegs(c.before, c.op, c.inst)
  }

  function After(c: Commit): Regs {
    BodyRegs(Begun(c), c.memory, c.op, c.inst)
  }

  /** Any number of steps, each with its own stop address. */
  ghost function Steps(t: Table, m: Machine, stops: seq<W.Option<u64>>): Machine {
    if stops == [] then m else StepOf(t, Steps(t, m, stops[..|stops| - 1]), stops[|stops| - 1])
  }

  /** What a step commits, if anything. */
  ghost function CommitOf(t: Table, m: Machine, stop: W.Option<u64>): W.Option<Commit> {
    var inst := NextInst(t, m, stop);
    if inst.None? || OpcodeOf(Mnemonic(inst.value)).Unsupported? then W.None
    else W.Some(Commit(OpcodeOf(Mnemonic(inst.value)), inst.value, m.regs, m.memory))
  }

  ghost function Added(c: W.Option<Commit>): seq<Commit> {
    if c.None? then [] else [c.value]
  }

  ghost function History(t: Table, m: Machine, stops: seq<W.Option<u64>>): seq<Commit> {
    if stops == [] then []
    else
      var n := |stops| - 1;
      History(t, m, stops[..n]) + Added(CommitOf(t, Steps(t, m, stops[..n]), stops[n]))
  }

  // ---------- One step ----------

  /** A step that commits: its registers, its record, one more cycle. */
  lemma {:induction false} CommittingStep(t: Table, m: Machine, stop: W.Option<u64>)
    requires CommitOf(t, m, stop).Some?
    ensures
      var c, m' := CommitOf(t, m, stop).value, StepOf(t, m, stop);
      && !m.terminated && c.inst.pc == m.regs.pc && W.Some(m.regs.pc) != stop
      && m'.regs == After(c) && m'.cycle == (m.cycle + 1) % TWO_64
      && m'.committed == m.committed + [RecordOf(m.regs, m.memory, m.cycle, c.op, c.inst)]
      && m'.lastCommitted == W.Some(RecordOf(m.regs, m.memory, m.cycle, c.op, c.inst))
      && m'.memory == BodyMemory(Begun(c), m.memory, c.op, c.inst)
  {
    hide BodyRegs, BodyMemory, BeginRegs, RecordOf, OpcodeOf, DecodedWord, ReadWord, ReadGpr, StoreAddress, FetchLength;
  }

  /** A rejected or undecodable step touches neither registers nor memory nor records; it ends the run,
      and the cycle advances only when an instruction had been decoded. */
  lemma {:induction false} RejectedStepChangesNothing(t: Table, m: Machine, stop: W.Option<u64>)
    requires CommitOf(t, m, stop).None?
    ensures
      var m' := StepOf(t, m, stop);
      && m'.regs == m.regs && m'.memory == m.memory && m'.program == m.program
      && m'.committed == m.committed && m'.lastCommitted == m.lastCommitted
      && m'.terminated
      && m'.cycle == (if NextInst(t, m, stop).Some? then (m.cycle + 1) % TWO_64 else m.cycle)
  {
    hide BodyRegs, BodyMemory, BeginRegs, RecordOf, FetchOf, OpcodeOf;
  }

  lemma {:induction false} BegunFacts(c: Commit)
    ensures
      var b := Begun(c);
      && b.pc == c.before.pc && b.tgt == c.before.tgt && b.carg == c.before.carg
      && b.blocktype == c.before.blocktype && b.gpr == c.before.gpr
      && b.tq == c.before.tq && b.uq == c.before.uq
      && b.insnCount == (c.before.insnCount + 1) % TWO_64
  {
  }

  /** What every instruction does to the block and count registers. */
  lemma {:induction false} ControlEffect(c: Commit)
    ensures
      var r, b := After(c), c.before;
      && r.insnCount == (b.insnCount + 1) % TWO_64
      && r.blocktype == (match c.op case BstartStd => 0 case Bstop => 0
                         case Bstart => if Direct(c.inst) then 1 else 2 case _ => b.blocktype)
      && r.tgt == (if c.op.Bstart? then Target(b, c.inst) else b.tgt)
      && r.carg == (if c.op.Bstop? then 0
                    else if c.op.SetcNe? || c.op.SetcLtu? then (if SetcHolds(b, c.op, c.inst) then 1 else 0)
                    else b.carg)
      && r.pc == (if c.op.Bstop? && (b.blocktype == 1 || (b.blocktype == 2 && b.carg != 0)) then b.tgt
                  else c.inst.nextPc)
  {
    hide ScalarValue, OpcodeOf, UnsignedAny, SignedAny, Contains;
    BegunFacts(c);
  }

  // ---------- Bookkeeping over runs ----------

  /** The registers after the first i instructions. */
  function LeftBy(first: Regs, h: seq<Commit>, i: nat): Regs
    requires i <= |h|
  {
    if i == 0 then first else After(h[i - 1])
  }

  /** Each instruction finds the registers the one before it left. */
  ghost predicate Linked(first: Regs, h: seq<Commit>, last: Regs) {
    && last == LeftBy(first, h, |h|)
    && forall i {:trigger LeftBy(first, h, i)} ::
         0 <= i < |h| ==> h[i].before == LeftBy(first, h, i) && h[i].inst.pc == h[i].before.pc
  }

  lemma {:induction false} LinkedPrefix(first: Regs, h: seq<Commit>, last: Regs, n: nat)
    requires Linked(first, h, last) && n < |h|
    ensures Linked(first, h[..n], h[n].before)
    ensures h[n].before == LeftBy(first, h, n) && h[n].inst.pc == h[n].before.pc
  {
    hide After;
    assert h[n].before == LeftBy(first, h, n);
    forall i | 0 <= i < n
      ensures h[..n][i].before == LeftBy(first, h[..n], i) && h[..n][i].inst.pc == h[..n][i].before.pc
    {
      assert h[i].before == LeftBy(first, h, i);
    }
  }

  lemma {:induction false} LinkedNext(first: Regs, h: seq<Commit>, c: Commit)
    requires Linked(first, h, c.before) && c.inst.pc == c.before.pc
    ensures Linked(first, h + [c], After(c))
  {
    hide After;
    forall i | 0 <= i <= |h|
      ensures (h + [c])[i].before == LeftBy(first, h + [c], i) && (h + [c])[i].inst.pc == (h + [c])[i].before.pc
    {
      assert i < |h| ==> h[i].before == LeftBy(first, h, i);
    }
  }

  function Records(h: seq<Commit>, cycle: u64): (r: seq<Record>)
    ensures |r| == |h|
    ensures forall i :: 0 <= i < |h| ==>
              r[i] == RecordOf(h[i].before, h[i].memory, (cycle + i) % TWO_64, h[i].op, h[i].inst)
  {
    seq(|h|, (i: int) requires 0 <= i < |h| =>
      RecordOf(h[i].before, h[i].memory, (cycle + i) % TWO_64, h[i].op, h[i].inst))
  }

  ghost predicate Booked(start: Machine, h: seq<Commit>, m: Machine) {
    && Linked(start.regs, h, m.regs)
    && m.committed == start.committed + Records(h, start.cycle)
    && m.regs.insnCount == (start.regs.insnCount + |h|) % TWO_64
    && m.lastCommitted == (if h == [] then start.lastCommitted else W.Some(m.committed[|m.committed| - 1]))
    && (!m.terminated ==> m.cycle == (start.cycle + |h|) % TWO_64)
    && (start.terminated ==> m == start)
  }

  lemma {:induction false} ModNext(a: nat, k: nat)
    ensures ((a + k) % TWO_64 + 1) % TWO_64 == (a + (k + 1)) % TWO_64
  {
    var n := a + k;
    var q := n / TWO_64;
    assert n == q * TWO_64 + n % TWO_64;
    if n % TWO_64 + 1 < TWO_64 {
      ModUnique(n + 1, q, n % TWO_64 + 1);
    } else {
      ModUnique(n + 1, q + 1, 0);
    }
  }

  /** Over any number of steps the records are exactly the committed instructions: record i carries the
      cycle i steps after the start and the pc the instruction before it left, and the instruction
      count is the number committed. */
  lemma {:induction false} RunBookkeeping(t: Table, m: Machine, stops: seq<W.Option<u64>>)
    ensures Booked(m, History(t, m, stops), Steps(t, m, stops))
  {
    if stops == [] {
      NothingBooked(m);
    } else {
      var n := |stops| - 1;
      RunBookkeeping(t, m, stops[..n]);
      BookedStep(t, m, History(t, m, stops[..n]), Steps(t, m, stops[..n]), stops[n]);
    }
  }

  lemma {:induction false} NothingBooked(m: Machine)
    ensures Booked(m, [], m)
  {
    ModUnique(m.regs.insnCount, 0, m.regs.insnCount);
    ModUnique(m.cycle, 0, m.cycle);
    assert m.committed + Records([], m.cycle) == m.committed;
  }

  lemma {:induction false} BookedStep(t: Table, start: Machine, h: seq<Commit>, m: Machine, stop: W.Option<u64>)
    requires Booked(start, h, m)
    ensures Booked(start, h + Added(CommitOf(t, m, stop)), StepOf(t, m, stop))
  {
    hide *;
    CommitBefore(t, m, stop);
    if CommitOf(t, m, stop).None? {
      RejectedStepChangesNothing(t, m, stop);
      BookedRejected(start, h, m, StepOf(t, m, stop));
    } else {
      CommittingStep(t, m, stop);
      CountStep(CommitOf(t, m, stop).value);
      BookedCommit(start, h, m, CommitOf(t, m, stop).value, StepOf(t, m, stop));
    }
  }

  lemma {:induction false} CountStep(c: Commit)
    ensures After(c).insnCount == (c.before.insnCount + 1) % TWO_64
  {
    ControlEffect(c);
  }

  lemma {:induction false} BookedRejected(start: Machine, h: seq<Commit>, m: Machine, m': Machine)
    requires Booked(start, h, m)
    requires m'.regs == m.regs && m'.committed == m.committed && m'.lastCommitted == m.lastCommitted
    requires m'.terminated && (m.terminated ==> m' == m)
    ensures Booked(start, h + [], m')
  {
    hide RecordOf, After;
    assert h + [] == h;
  }

  lemma {:induction false} CommitBefore(t: Table, m: Machine, stop: W.Option<u64>)
    ensures
      var c := CommitOf(t, m, stop);
      && Added(c) == (if c.None? then [] else [c.value])
      && (c.Some? ==> c.value.before == m.regs && c.value.memory == m.memory)
      && (m.terminated ==> StepOf(t, m, stop) == m)
  {
  }

  lemma {:induction false} BookedCommit(start: Machine, h: seq<Commit>, m: Machine, c: Commit, m': Machine)
    requires Booked(start, h, m) && !m.terminated
    requires c.before == m.regs && c.memory == m.memory && c.inst.pc == m.regs.pc
    requires m'.regs == After(c) && m'.cycle == (m.cycle + 1) % TWO_64
    requires m'.committed == m.committed + [RecordOf(m.regs, m.memory, m.cycle, c.op, c.inst)]
    requires m'.lastCommitted == W.Some(RecordOf(m.regs, m.memory, m.cycle, c.op, c.inst))
    requires m'.regs.insnCount == (m.regs.insnCount + 1) % TWO_64
    ensures Booked(start, h + [c], m')
  {
    hide After, RecordOf;
    LinkedNext(start.regs, h, c);
    ModNext(start.cycle, |h|);
    ModNext(start.regs.insnCount, |h|);
    assert Records(h + [c], start.cycle) ==
           Records(h, start.cycle) + [RecordOf(c.before, c.memory, m.cycle, c.op, c.inst)];
    assert (h + [c])[..|h|] == h;
  }

  /** A step after `LoadProgram` does something, whatever the program and the stop address, if and only if
      the context had not terminated; a terminated one stays as loaded for every number of steps, and
      only `Reset` clears the flag. */
  lemma {:induction false} LoadAloneDoesNotRestart(t: Table, m: Machine, image: Image, stop: W.Option<u64>,
                                                   stops: seq<W.Option<u64>>)
    ensures StepOf(t, LoadOf(m, image), stop) == LoadOf(m, image) <==> m.terminated
    ensures m.terminated ==> Steps(t, LoadOf(m, image), stops) == LoadOf(m, image)
    ensures !ResetOf(m).terminated && ResetOf(m).cycle == 0
  {
    hide *;
    RunBookkeeping(t, LoadOf(m, image), stops);
    LoadFacts(m, image);
    ResetFacts(m);
    StuckExactly(t, LoadOf(m, image), stop);
    BookedStuck(LoadOf(m, image), History(t, LoadOf(m, image), stops), Steps(t, LoadOf(m, image), stops));
  }

  lemma {:induction false} LoadFacts(m: Machine, image: Image)
    ensures
      var start := LoadOf(m, image);
      && start.terminated == m.terminated && start.cycle == m.cycle && start.committed == []
      && start.regs.insnCount == 0 && start.regs.blocktype == 0 && start.regs.carg == 0
  {
  }

  lemma {:induction false} StuckExactly(t: Table, m: Machine, stop: W.Option<u64>)
    ensures StepOf(t, m, stop) == m <==> m.terminated
  {
    hide *;
    CommitBefore(t, m, stop);
    if CommitOf(t, m, stop).None? {
      RejectedStepChangesNothing(t, m, stop);
    } else {
      CommittingStep(t, m, stop);
      NextCycleDiffers(m.cycle);
    }
  }

  lemma {:induction false} NextCycleDiffers(cycle: u64)
    ensures (cycle + 1) % TWO_64 != cycle
  {
    if cycle + 1 < TWO_64 {
      ModUnique(cycle + 1, 0, cycle + 1);
    } else {
      ModUnique(cycle + 1, 1, 0);
    }
  }

  lemma {:induction false} BookedStuck(start: Machine, h: seq<Commit>, m: Machine)
    requires Booked(start, h, m)
    ensures start.terminated ==> m == start
  {
  }

  /** The records after a load are numbered from 0 if and only if the cycle count the context kept is 0. */
  lemma {:induction false} LoadNumbersFromZero(t: Table, m: Machine, image: Image, stops: seq<W.Option<u64>>)
    requires Steps(t, LoadOf(m, image), stops).committed != []
    ensures
      var committed := Steps(t, LoadOf(m, image), stops).committed;
      (forall i :: 0 <= i < |committed| ==> committed[i].cycle == i % TWO_64) <==> m.cycle == 0
  {
    hide *;
    var start := LoadOf(m, image);
    var h, last := History(t, start, stops), Steps(t, start, stops);
    RunBookkeeping(t, start, stops);
    LoadFacts(m, image);
    BookedLengths(start, h, last);
    forall i | 0 <= i < |last.committed|
      ensures last.committed[i].cycle == (m.cycle + i) % TWO_64
    {
      RecordAt(start, h, last, i);
      RecordPlace(h[i].before, h[i].memory, (m.cycle + i) % TWO_64, h[i].op, h[i].inst);
    }
    ModUnique(m.cycle, 0, m.cycle);
    assert last.committed[0].cycle == m.cycle;
  }

  /** From a fresh or reset context there is one record for each committed instruction, and the count of
      instructions is that number, none included. */
  lemma {:induction false} FreshRunCounts(t: Table, m: Machine, stops: seq<W.Option<u64>>)
    ensures
      var last, h := Steps(t, ResetOf(m), stops), History(t, ResetOf(m), stops);
      |h| == |last.committed| && last.regs.insnCount == |last.committed| % TWO_64
  {
    hide *;
    ResetFacts(m);
    RunBookkeeping(t, ResetOf(m), stops);
    BookedLengths(ResetOf(m), History(t, ResetOf(m), stops), Steps(t, ResetOf(m), stops));
  }

  /** The records of such a run number the cycles 0, 1, 2, … and chain: record i starts at the pc that the
      instruction before it left. */
  lemma {:induction false} FreshRunBookkeeping(t: Table, m: Machine, stops: seq<W.Option<u64>>, i: nat)
    requires i < |Steps(t, ResetOf(m), stops).committed|
    ensures
      var start, last, h := ResetOf(m), Steps(t, ResetOf(m), stops), History(t, ResetOf(m), stops);
      && |h| == |last.committed|
      && last.committed[i].cycle == i % TWO_64
      && last.committed[i].pc == LeftBy(start.regs, h, i).pc
      && last.committed[i].nextPc == h[i].inst.nextPc
  {
    hide *;
    ResetFacts(m);
    RunBookkeeping(t, ResetOf(m), stops);
    BookedFresh(ResetOf(m), History(t, ResetOf(m), stops), Steps(t, ResetOf(m), stops), i);
  }

  lemma {:induction false} ResetFacts(m: Machine)
    ensures
      var start := ResetOf(m);
      start.committed == [] && start.cycle == 0 && start.regs.insnCount == 0 && !start.terminated
  {
  }

  /** The record of the i-th committed instruction. */
  lemma {:induction false} RecordAt(start: Machine, h: seq<Commit>, m: Machine, i: nat)
    requires Booked(start, h, m) && i < |h|
    ensures |m.committed| == |start.committed| + |h|
    ensures m.committed[|start.committed| + i] ==
            RecordOf(h[i].before, h[i].memory, (start.cycle + i) % TWO_64, h[i].op, h[i].inst)
    ensures h[i].before == LeftBy(start.regs, h, i) && h[i].inst.pc == h[i].before.pc
  {
    hide RecordOf, LeftBy;
    assert h[i].before == LeftBy(start.regs, h, i);
  }

  lemma {:induction false} BookedLengths(start: Machine, h: seq<Commit>, m: Machine)
    requires Booked(start, h, m)
    ensures |m.committed| == |start.committed| + |h| && m.committed[..|start.committed|] == start.committed
    ensures m.regs.insnCount == (start.regs.insnCount + |h|) % TWO_64
  {
    hide RecordOf, LeftBy;
  }

  lemma {:induction false} BookedFresh(start: Machine, h: seq<Commit>, m: Machine, i: nat)
    requires Booked(start, h, m) && start.committed == [] && start.cycle == 0 && start.regs.insnCount == 0
    requires i < |m.committed|
    ensures |h| == |m.committed| && m.regs.insnCount == |m.committed| % TWO_64
    ensures m.committed[i].cycle == i % TWO_64
    ensures m.committed[i].pc == LeftBy(start.regs, h, i).pc && m.committed[i].nextPc == h[i].inst.nextPc
  {
    hide *;
    BookedLengths(start, h, m);
    RecordAt(start, h, m, i);
    RecordPlace(h[i].before, h[i].memory, i % TWO_64, h[i].op, h[i].inst);
  }

  lemma {:induction false} RecordPlace(r: Regs, m: Memory, cycle: u64, op: Opcode, inst: Inst)
    ensures
      var record := RecordOf(r, m, cycle, op, inst);
      record.cycle == cycle && record.pc == inst.pc && record.nextPc == inst.nextPc
  {
    hide ScalarValue, OpcodeOf, BeginRegs;
  }

  // ---------- The block kind of a record ----------

  /** The record an instruction commits carries the block kind and the lane it leaves in the registers,
      unless it is a C.BSTART.STD: that one carries those of the block before it, so the kinds agree
      exactly when that block was scalar already, and the lanes exactly when it was not a vector block. */
  lemma {:induction false} RecordKindExactly(m: Machine, inst: Inst)
    requires !OpcodeOf(Mnemonic(inst)).Unsupported?
    ensures
      var op, m' := OpcodeOf(Mnemonic(inst)), ExecuteOf(m, inst);
      && |m'.committed| == |m.committed| + 1
      && (m'.committed[|m.committed|].blockKind == m'.regs.blockKind <==>
            !(op.BstartStd? && m.regs.blockKind != Scalar))
      && (m'.committed[|m.committed|].laneId == m'.regs.laneId <==>
            !(op.BstartStd? && m.regs.blockKind in {Vpar, Vseq}))
  {
    hide OpcodeOf, BodyRegs, RecordOf, BodyMemory;
    var op := OpcodeOf(Mnemonic(inst));
    KindInRegs(Commit(op, inst, m.regs, m.memory));
    KindInRecord(m.regs, m.memory, m.cycle, op, inst);
  }

  lemma {:induction false} KindInRegs(c: Commit)
    ensures
      var kind := ResolveBlockKind(c.op, c.before.blockKind);
      && After(c).blockKind == (if c.op.BstartStd? then Scalar else if c.op.BText? then Tlsu else kind)
      && After(c).laneId == (if c.op.BstartStd? then -1 else ResolveLaneId(kind))
  {
    hide ScalarValue, UnsignedAny, SignedAny, Contains, ReadGpr;
  }

  lemma {:induction false} KindInRecord(r: Regs, m: Memory, cycle: u64, op: Opcode, inst: Inst)
    ensures
      var kind, record := ResolveBlockKind(op, r.blockKind), RecordOf(r, m, cycle, op, inst);
      record.blockKind == (if op.BText? then Tlsu else kind) && record.laneId == ResolveLaneId(kind)
  {
    hide ScalarValue, OpcodeOf, ReadGpr, StoreAddress, LoadAddress, Text31;
  }

  /** A C.BSTART.STD after a vector block: the registers say scalar, the record says vpar. */
  lemma {:induction false} StaleKindInput() returns (m: Machine, inst: Inst)
    ensures Mnemonic(inst) == "C.BSTART.STD"
    ensures
      var m' := ExecuteOf(m, inst);
      && |m'.committed| == |m.committed| + 1
      && m'.regs.blockKind == Scalar && m'.committed[|m.committed|].blockKind == Vpar
      && m'.regs.laneId == -1 && m'.committed[|m.committed|].laneId == 0
  {
    var form := Form("", "C.BSTART.STD", "", 16, 0, Zero(), Zero(), 0, 0, 0, 0);
    inst := Inst(1, 0, 2, Decoded(W.Some(form), true, CodecStatus.Ok, CodecStatus.Ok, Zero(), 16, 2, [], [], []));
    m := EmptyMachine(W.None).(regs := ResetRegs().(blockKind := Vpar, laneId := 0));
    assert OpcodeOf(Mnemonic(inst)) == BstartStd;
    hide OpcodeOf, BodyMemory, Text31;
  }

  // ---------- Bounded runs ----------

  function Repeat(stop: W.Option<u64>, n: nat): (s: seq<W.Option<u64>>)
    ensures |s| == n
  {
    if n == 0 then [] else Repeat(stop, n - 1) + [stop]
  }

  lemma {:induction false} RepeatNext(t: Table, m: Machine, stop: W.Option<u64>, n: nat)
    ensures Steps(t, m, Repeat(stop, 0)) == m && History(t, m, Repeat(stop, 0)) == []
    ensures
      var last := Steps(t, m, Repeat(stop, n));
      && Steps(t, m, Repeat(stop, n + 1)) == StepOf(t, last, stop)
      && History(t, m, Repeat(stop, n + 1)) == History(t, m, Repeat(stop, n)) + Added(CommitOf(t, last, stop))
  {
    hide StepOf, CommitOf, Added;
    assert Repeat(stop, n + 1)[..n] == Repeat(stop, n);
  }

  /** The first step taken apart from the others. */
  lemma {:induction false} StepsFromFront(t: Table, m: Machine, stop: W.Option<u64>, n: nat)
    ensures Steps(t, StepOf(t, m, stop), Repeat(stop, n)) == Steps(t, m, Repeat(stop, n + 1))
  {
    hide *;
    RepeatNext(t, m, stop, n);
    if n == 0 {
      RepeatNext(t, StepOf(t, m, stop), stop, 0);
    } else {
      RepeatNext(t, StepOf(t, m, stop), stop, n - 1);
      StepsFromFront(t, m, stop, n - 1);
    }
  }

  lemma {:induction false} RunUnfold(t: Table, m: Machine, stop: W.Option<u64>, maxCycles: u64)
    ensures RunOf(t, m, stop, maxCycles) ==
            if m.terminated then m
            else if m.cycle >= maxCycles then Terminate(m, m.exitCode, "max_cycles")
            else RunOf(t, StepOf(t, m, stop), stop, maxCycles)
  {
    hide StepOf;
  }

  /** A bounded run is so many steps, ended by a step or by the cycle bound; it always ends terminated. */
  lemma {:induction false} RunIsSteps(t: Table, m: Machine, stop: W.Option<u64>, maxCycles: u64) returns (n: nat)
    ensures n <= CyclesLeft(m, maxCycles)
    ensures
      var last := Steps(t, m, Repeat(stop, n));
      && RunOf(t, m, stop, maxCycles) ==
         (if last.terminated then last else Terminate(last, last.exitCode, "max_cycles"))
      && (last.terminated || last.cycle >= maxCycles)
    ensures RunOf(t, m, stop, maxCycles).terminated
    decreases CyclesLeft(m, maxCycles)
  {
    hide *;
    RunUnfold(t, m, stop, maxCycles);
    TerminateKeeps(m, "max_cycles");
    n := 0;
    if m.terminated || m.cycle >= maxCycles {
      RepeatNext(t, m, stop, 0);
    } else {
      StepCycle(t, m, stop, maxCycles);
      var k := RunIsSteps(t, StepOf(t, m, stop), stop, maxCycles);
      StepsFromFront(t, m, stop, k);
      n := k + 1;
    }
  }

  lemma {:induction false} HistoryWithin(t: Table, m: Machine, stop: W.Option<u64>, n: nat)
    ensures |History(t, m, Repeat(stop, n))| <= n
    ensures forall c :: c in History(t, m, Repeat(stop, n)) ==> W.Some(c.inst.pc) != stop
  {
    hide *;
    RepeatNext(t, m, stop, n);
    if n > 0 {
      HistoryWithin(t, m, stop, n - 1);
      RepeatNext(t, m, stop, n - 1);
      var last := Steps(t, m, Repeat(stop, n - 1));
      CommitBefore(t, last, stop);
      if CommitOf(t, last, stop).Some? {
        CommittingStep(t, last, stop);
      }
    }
  }

  /** A bounded run commits at most as many instructions as there were cycles left, and never the one
      at the stop address. */
  lemma {:induction false} RunBounded(t: Table, m: Machine, stop: W.Option<u64>, maxCycles: u64)
    ensures
      var last := RunOf(t, m, stop, maxCycles);
      && last.terminated
      && |m.committed| <= |last.committed| <= |m.committed| + CyclesLeft(m, maxCycles)
      && last.committed[..|m.committed|] == m.committed
      && forall k :: |m.committed| <= k < |last.committed| ==> W.Some(last.committed[k].pc) != stop
  {
    hide *;
    var n := RunIsSteps(t, m, stop, maxCycles);
    var steps := Repeat(stop, n);
    RunBookkeeping(t, m, steps);
    HistoryWithin(t, m, stop, n);
    BookedWithin(m, History(t, m, steps), Steps(t, m, steps), stop);
    TerminateKeeps(Steps(t, m, steps), "max_cycles");
  }

  lemma {:induction false} TerminateKeeps(m: Machine, reason: string)
    ensures Terminate(m, m.exitCode, reason).committed == m.committed && Terminate(m, m.exitCode, reason).terminated
  {
  }

  lemma {:induction false} BookedWithin(start: Machine, h: seq<Commit>, m: Machine, stop: W.Option<u64>)
    requires Booked(start, h, m) && forall c :: c in h ==> W.Some(c.inst.pc) != stop
    ensures |m.committed| == |start.committed| + |h| && m.committed[..|start.committed|] == start.committed
    ensures forall k :: |start.committed| <= k < |m.committed| ==> W.Some(m.committed[k].pc) != stop
  {
    hide *;
    BookedLengths(start, h, m);
    forall k | |start.committed| <= k < |m.committed|
      ensures W.Some(m.committed[k].pc) != stop
    {
      var i := k - |start.committed|;
      RecordAt(start, h, m, i);
      RecordPlace(h[i].before, h[i].memory, (start.cycle + i) % TWO_64, h[i].op, h[i].inst);
    }
  }

  // ---------- Block control flow ----------

  predicate ClosesBlock(c: Commit) {
    c.op.Bstop? || c.op.BstartStd?
  }

  predicate IsSetc(c: Commit) {
    c.op.SetcNe? || c.op.SetcLtu?
  }

  predicate Held(c: Commit) {
    SetcHolds(c.before, c.op, c.inst)
  }

  /** The latest C.BSTART with no C.BSTOP or C.BSTART.STD after it, or -1. */
  function OpenHeader(h: seq<Commit>): (k: int)
    ensures -1 <= k < |h|
    ensures k >= 0 ==> h[k].op.Bstart? && forall j :: k < j < |h| ==> !h[j].op.Bstart? && !ClosesBlock(h[j])
    ensures k == -1 ==> forall j :: 0 <= j < |h| && h[j].op.Bstart? ==> exists i :: j < i < |h| && ClosesBlock(h[i])
  {
    if h == [] then -1
    else if h[|h| - 1].op.Bstart? then |h| - 1
    else if ClosesBlock(h[|h| - 1]) then -1
    else OpenHeader(h[..|h| - 1])
  }

  /** The latest SETC with no C.BSTOP after it, or -1. */
  function LatestSetc(h: seq<Commit>): (k: int)
    ensures -1 <= k < |h|
    ensures k >= 0 ==> IsSetc(h[k]) && forall j :: k < j < |h| ==> !IsSetc(h[j]) && !h[j].op.Bstop?
    ensures k == -1 ==> forall j :: 0 <= j < |h| && IsSetc(h[j]) ==> exists i :: j < i < |h| && h[i].op.Bstop?
  {
    if h == [] then -1
    else if IsSetc(h[|h| - 1]) then |h| - 1
    else if h[|h| - 1].op.Bstop? then -1
    else LatestSetc(h[..|h| - 1])
  }

  /** Would a C.BSTOP after this history leave the straight line? */
  predicate Redirects(h: seq<Commit>) {
    var b, s := OpenHeader(h), LatestSetc(h);
    b >= 0 && (Direct(h[b].inst) || (s >= 0 && Held(h[s])))
  }

  /** Twice the offset of the header, from the header's own address. */
  function HeaderTarget(c: Commit): u64 {
    AsU64(c.inst.pc + 2 * SignedAny(c.inst.data.fields, ["simm12"]))
  }

  /** What the block registers remember of the history. */
  predicate Remembers(r: Regs, h: seq<Commit>) {
    var b, s := OpenHeader(h), LatestSetc(h);
    && r.blocktype == (if b < 0 then 0 else if Direct(h[b].inst) then 1 else 2)
    && (b >= 0 ==> r.tgt == HeaderTarget(h[b]))
    && (r.carg != 0 <==> s >= 0 && Held(h[s]))
  }

  lemma {:induction false} RemembersNext(h: seq<Commit>, c: Commit)
    requires Remembers(c.before, h) && c.inst.pc == c.before.pc
    ensures Remembers(After(c), h + [c])
  {
    hide After, SetcHolds, Contains, SignedAny;
    ControlEffect(c);
    assert (h + [c])[..|h|] == h;
  }

  lemma {:induction false} RemembersNothing(first: Regs)
    requires first.blocktype == 0 && first.carg == 0
    ensures Remembers(first, [])
  {
  }

  lemma {:induction false} HistoryRemembers(first: Regs, h: seq<Commit>, last: Regs)
    requires Linked(first, h, last) && first.blocktype == 0 && first.carg == 0
    ensures Remembers(last, h)
    decreases |h|
  {
    hide Remembers, After, RecordOf;
    RemembersNothing(first);
    if h != [] {
      var n := |h| - 1;
      LinkedPrefix(first, h, last, n);
      HistoryRemembers(first, h[..n], h[n].before);
      RemembersNext(h[..n], h[n]);
      assert h[..n] + [h[n]] == h;
    }
  }

  /** Block control flow over every run from a loaded program: a C.BSTOP goes to twice the offset past
      the latest C.BSTART still open, exactly when there is one and it is DIRECT or the latest SETC
      since the previous C.BSTOP held; every other committed instruction continues at its next pc. */
  lemma {:induction false} BlockControlFlow(t: Table, m: Machine, image: Image, stops: seq<W.Option<u64>>, i: nat)
    requires i < |History(t, LoadOf(m, image), stops)|
    ensures
      var h := History(t, LoadOf(m, image), stops);
      After(h[i]).pc ==
        if h[i].op.Bstop? && Redirects(h[..i]) then HeaderTarget(h[OpenHeader(h[..i])]) else h[i].inst.nextPc
  {
    hide After, Held, Direct, HeaderTarget, Booked;
    var start := LoadOf(m, image);
    var h := History(t, start, stops);
    RunBookkeeping(t, start, stops);
    BookedLinked(start, h, Steps(t, start, stops));
    LinkedPrefix(start.regs, h, Steps(t, start, stops).regs, i);
    HistoryRemembers(start.regs, h[..i], h[i].before);
    ControlEffect(h[i]);
  }

  lemma {:induction false} BookedLinked(start: Machine, h: seq<Commit>, m: Machine)
    requires Booked(start, h, m)
    ensures Linked(start.regs, h, m.regs)
  {
  }

  // ---------- Registers and shift queues over runs ----------

  /** The values written to one scalar destination, newest first. */
  function Written(h: seq<Commit>, idx: u64): seq<u64> {
    if h == [] then []
    else
      var c := h[|h| - 1];
      (if WritesScalar(c.op) && OperandAt(c.inst.data.dsts, 0) == idx
       then [ScalarValue(Begun(c), c.memory, c.op, c.inst)] else []) + Written(h[..|h| - 1], idx)
  }

  function NewestOr0(values: seq<u64>, k: nat): u64 {
    if k < |values| then values[k] else 0
  }

  predicate Recalls(r: Regs, h: seq<Commit>) {
    && (forall idx :: 0 <= idx < 24 ==> r.gpr[idx] == if idx == 0 then 0 else NewestOr0(Written(h, idx), 0))
    && (forall k :: 0 <= k < 4 ==> r.tq[k] == NewestOr0(Written(h, 31), k))
    && (forall k :: 0 <= k < 4 ==> r.uq[k] == NewestOr0(Written(h, 30), k))
  }

  lemma {:induction false} ScalarEffect(c: Commit)
    ensures
      var w :=
        if WritesScalar(c.op)
        then WriteScalar(c.before, OperandAt(c.inst.data.dsts, 0), ScalarValue(Begun(c), c.memory, c.op, c.inst))
        else c.before;
      After(c).gpr == w.gpr && After(c).tq == w.tq && After(c).uq == w.uq
  {
    hide ScalarValue, OpcodeOf, UnsignedAny, SignedAny, Contains;
    BegunFacts(c);
  }

  lemma {:induction false} RecallsNext(h: seq<Commit>, c: Commit)
    requires Recalls(c.before, h)
    ensures Recalls(After(c), h + [c])
  {
    hide After, ScalarValue, Begun;
    ScalarEffect(c);
    assert (h + [c])[..|h|] == h;
    var idx := OperandAt(c.inst.data.dsts, 0);
    forall x: u64 | x != idx || !WritesScalar(c.op)
      ensures Written(h + [c], x) == Written(h, x)
    {
      assert [] + Written(h, x) == Written(h, x);
    }
  }

  /** Over every run from a loaded program, register k holds the newest value written to it, and the
      T and U queues hold the four newest values written to destinations 31 and 30, newest first. */
  lemma {:induction false} RegistersRecallWrites(t: Table, m: Machine, image: Image, stops: seq<W.Option<u64>>)
    ensures Recalls(Steps(t, LoadOf(m, image), stops).regs, History(t, LoadOf(m, image), stops))
  {
    hide Booked;
    var start := LoadOf(m, image);
    var h := History(t, start, stops);
    RunBookkeeping(t, start, stops);
    BookedLinked(start, h, Steps(t, start, stops));
    HistoryRecalls(start.regs, h, Steps(t, start, stops).regs);
  }

  lemma {:induction false} HistoryRecalls(first: Regs, h: seq<Commit>, last: Regs)
    requires Linked(first, h, last) && Recalls(first, [])
    ensures Recalls(last, h)
    decreases |h|
  {
    hide Recalls, After;
    if h != [] {
      var n := |h| - 1;
      LinkedPrefix(first, h, last, n);
      HistoryRecalls(first, h[..n], h[n].before);
      RecallsNext(h[..n], h[n]);
      assert h[..n] + [h[n]] == h;
    }
  }

  // ---------- Memory ----------

  function Operand(c: Commit, k: nat): u64 {
    ReadGpr(c.before, OperandAt(c.inst.data.srcs, k))
  }

  /** Does this instruction write the byte at x? */
  predicate Touches(c: Commit, x: u64) {
    match c.op
    case Swi => Within(x, StoreAddress(c.before, c.inst), 4)
    case Mcopy => Within(x, Operand(c, 0), Operand(c, 2))
    case Mset => Within(x, Operand(c, 0), Operand(c, 2))
    case _ => false
  }

  /** The byte it puts there. */
  function Puts(c: Commit, x: u64): u8
    requires Touches(c, x)
  {
    match c.op
    case Swi => ByteOf(FromNat(Operand(c, 0) % TWO_32, 64), (x - StoreAddress(c.before, c.inst)) % TWO_64)
    case Mcopy => Get(c.memory, Origin(Operand(c, 0), Operand(c, 1), (x - Operand(c, 0)) % TWO_64))
    case Mset => Operand(c, 1) % 256
  }

  lemma {:induction false} BodyTouches(c: Commit, x: u64)
    ensures
      var m := BodyMemory(Begun(c), c.memory, c.op, c.inst);
      if Touches(c, x) then x in m && m[x] == Puts(c, x)
      else (x in m <==> x in c.memory) && (x in m ==> m[x] == c.memory[x])
  {
    hide ByteOf, FromNat, Origin, SignedAny, StoreBytes, CopyUpTo;
    BegunFacts(c);
    match c.op
    case Swi =>
      StoredByte(c.memory, StoreAddress(c.before, c.inst), BytesOf(FromNat(Operand(c, 0) % TWO_32, 64), 4), x);
    case Mcopy => CopyClosedForm(c.memory, Operand(c, 0), Operand(c, 1), Operand(c, 2), x);
    case Mset => StoredByte(c.memory, Operand(c, 0), Copies(Operand(c, 1) % 256, Operand(c, 2)), x);
    case _ =>
  }

  /** The latest instruction that wrote the byte at x, or -1. */
  function LatestWriter(h: seq<Commit>, x: u64): (k: int)
    ensures -1 <= k < |h|
    ensures k >= 0 ==> Touches(h[k], x)
    ensures forall j :: k < j < |h| ==> !Touches(h[j], x)
  {
    if h == [] then -1
    else if Touches(h[|h| - 1], x) then |h| - 1
    else LatestWriter(h[..|h| - 1], x)
  }

  /** Over every run the byte at x is the one its latest writer put there, or what was there before. */
  lemma {:induction false} MemoryRecallsWrites(t: Table, m: Machine, stops: seq<W.Option<u64>>, x: u64)
    ensures
      var h, memory := History(t, m, stops), Steps(t, m, stops).memory;
      var k := LatestWriter(h, x);
      if k >= 0 then x in memory && memory[x] == Puts(h[k], x)
      else (x in memory <==> x in m.memory) && (x in memory ==> memory[x] == m.memory[x])
  {
    hide StepOf, CommitOf, Touches, Puts;
    if stops != [] {
      var n := |stops| - 1;
      MemoryRecallsWrites(t, m, stops[..n], x);
      var h, last := History(t, m, stops[..n]), Steps(t, m, stops[..n]);
      var c := CommitOf(t, last, stops[n]);
      CommitBefore(t, last, stops[n]);
      if c.None? {
        RejectedStepChangesNothing(t, last, stops[n]);
        assert h + [] == h;
      } else {
        CommittingStep(t, last, stops[n]);
        BodyTouches(c.value, x);
        assert (h + [c.value])[..|h|] == h;
      }
    }
  }

  /** The last section that holds x, or -1. */
  function LatestSection(sections: seq<Section>, x: u64): (k: int)
    ensures -1 <= k < |sections|
    ensures k >= 0 ==> Within(x, sections[k].address, |sections[k].bytes|)
    ensures forall j :: k < j < |sections| ==> !Within(x, sections[j].address, |sections[j].bytes|)
  {
    if sections == [] then -1
    else if Within(x, sections[|sections| - 1].address, |sections[|sections| - 1].bytes|) then |sections| - 1
    else LatestSection(sections[..|sections| - 1], x)
  }

  /** A loaded image maps exactly the addresses its sections cover, a later section on top. */
  lemma {:induction false} LoadedByte(sections: seq<Section>, x: u64)
    requires forall s :: s in sections ==> |s.bytes| <= TWO_64
    ensures
      var m, k := LoadSections(sections), LatestSection(sections, x);
      && (x in m <==> k >= 0)
      && (k >= 0 ==> m[x] == sections[k].bytes[(x - sections[k].address) % TWO_64])
  {
    if sections != [] {
      var n := |sections| - 1;
      LoadedByte(sections[..n], x);
      assert sections[n] in sections;
      StoredByte(LoadSections(sections[..n]), sections[n].address, sections[n].bytes, x);
    }
  }

  /** A store to the finisher with a known status in its low half. */
  predicate Finishes(c: Commit) {
    && c.op.Swi? && StoreAddress(c.before, c.inst) == 0x10009000
    && Operand(c, 0) % TWO_32 % 0x1_0000 in {0x5555, 0x3333, 0x7777}
  }

  /** The exit code such a store asks for. */
  function FinishCode(c: Commit): int {
    var value := Operand(c, 0) % TWO_32;
    if value % 0x1_0000 == 0x5555 then 0 else if value / 0x1_0000 == 0 then 1 else value / 0x1_0000
  }

  /** A committed instruction ends the run exactly when it is an SWI to the finisher; MSET and MCOPY
      over that address do not. */
  lemma {:induction false} OnlyTheFinisherStops(t: Table, m: Machine, stop: W.Option<u64>)
    requires CommitOf(t, m, stop).Some?
    ensures
      var c, m' := CommitOf(t, m, stop).value, StepOf(t, m, stop);
      && (m'.terminated <==> Finishes(c))
      && m'.exitCode == (if Finishes(c) then FinishCode(c) else m.exitCode)
  {
    hide BodyRegs, BodyMemory, RecordOf, OpcodeOf, FetchOf, SignedAny;
    BegunFacts(CommitOf(t, m, stop).value);
  }

  /** A word stored by SWI is what LWI loads from the same address, sign-extended, wherever it wraps. */
  lemma {:induction false} StoredWordLoads(m: Memory, addr: u64, value: u32)
    ensures LoadedValue(StoreBytes(m, addr, BytesOf(FromNat(value, 64), 4)), addr) ==
            AsU64(if value < 0x8000_0000 then value else value - TWO_32)
  {
    Pow64();
    var w: Word := FromNat(value, 64);
    var bytes := BytesOf(w, 4);
    ReadStored(m, addr, bytes);
    PackedBytesOf(w, 4);
    Pow32();
    HighBitsClear(value, 64, 32);
    assert And(w, Mask(32)) == w;
    var v := if value < 0x8000_0000 then value else value - TWO_32;
    SignExtendOfTruncated(v, 32);
    LowBitsAlike(value, v);
  }

  lemma {:induction false} LowBitsAlike(value: u32, v: int)
    requires v == if value < 0x8000_0000 then value else value - TWO_32
    ensures And(FromInt64(v), Mask(32)) == FromNat(value, 64)
  {
    Pow64();
    Pow32();
    HighBitsClear(value, 64, 32);
    if v >= 0 {
      ModUnique(v, 0, v);
    } else {
      var n := v + TWO_64;
      ModUnique(v, -1, n);
      LowPart(n, value, TWO_32 - 1);
    }
  }

  /** Adding a multiple of 2^32 leaves the low 32 bits alone. */
  lemma {:induction false} LowPart(n: nat, low: u32, high: nat)
    requires n == high * TWO_32 + low
    ensures And(FromNat(n, 64), Mask(32)) == And(FromNat(low, 64), Mask(32))
  {
    FromNatPrefix(n, 32, 64);
    FromNatPrefix(low, 32, 64);
    Pow32();
    LowBitsOf(n, low, high, 32);
    forall i | 0 <= i < 64
      ensures And(FromNat(n, 64), Mask(32))[i] == And(FromNat(low, 64), Mask(32))[i]
    {
      if i < 32 {
        assert FromNat(n, 64)[..32][i] == FromNat(low, 64)[..32][i];
      }
    }
  }

  lemma {:induction false} LowBitsOf(n: nat, low: nat, high: nat, len: nat)
    requires n == high * Pow2(len) + low
    ensures FromNat(n, len) == FromNat(low, len)
  {
    if len > 0 {
      var p := Pow2(len - 1);
      assert high * Pow2(len) == 2 * (high * p);
      LowBitsOf(n / 2, low / 2, high, len - 1);
    }
  }
}
