/** Each instruction by its mnemonic: what it does to registers, memory and records, in numbers. */
module ExecutorMeaning {
  import opened Words
  import W = Wrappers
  import opened CodecTables
  import opened CodecMeaning
  import opened Machines

  // ---------- Mnemonics ----------

  lemma {:induction false} BlockOpcodes()
    ensures OpcodeOf("C.BSTART.STD") == BstartStd && OpcodeOf("C.BSTART.VPAR") == BstartVpar
    ensures OpcodeOf("C.BSTART.VSEQ") == BstartVseq && OpcodeOf("C.BSTART") == Bstart
    ensures OpcodeOf("C.BSTOP") == Bstop
  {
    hide IsCube, IsTlsu, ScalarOpcode;
  }

  /** A short name other than B.TEXT, or one starting with S, is neither a header nor a stop. */
  lemma {:induction false} NotBlock(name: string)
    requires (|name| <= 6 && name != "B.TEXT") || (|name| > 6 && name[0] == 'S')
    ensures OpcodeOf(name) == ScalarOpcode(name)
  {
    hide ScalarOpcode;
    if |name| > 6 {
      assert "C.BSTART"[0] == 'C' && "C.BSTOP"[0] == 'C' && "C.BSTART.STD"[0] == 'C';
      assert "C.BSTART.VPAR"[0] == 'C' && "C.BSTART.VSEQ"[0] == 'C' && "BSTART.TEPL"[0] == 'B';
      forall n: string | IsCube(n) || IsTlsu(n)
        ensures n[0] == 'B'
      {
      }
    }
  }

  lemma {:induction false} ValueOpcodes()
    ensures OpcodeOf("C.MOVI") == Movi && OpcodeOf("C.MOVR") == Movr && OpcodeOf("LUI") == Lui
    ensures OpcodeOf("HL.LUI") == HlLui && OpcodeOf("HL.LIU") == HlLiu && OpcodeOf("HL.LIS") == HlLis
    ensures OpcodeOf("ADDI") == Addi && OpcodeOf("LWI") == Lwi
  {
    hide OpcodeOf;
    NotBlock("C.MOVI");
    NotBlock("C.MOVR");
    NotBlock("LUI");
    NotBlock("HL.LUI");
    NotBlock("HL.LIU");
    NotBlock("HL.LIS");
    NotBlock("ADDI");
    NotBlock("LWI");
  }

  lemma {:induction false} OtherOpcodes()
    ensures OpcodeOf("SWI") == Swi && OpcodeOf("SETC.NE") == SetcNe && OpcodeOf("SETC.LTU") == SetcLtu
    ensures OpcodeOf("SSRSET") == Ssrset && OpcodeOf("MCOPY") == Mcopy && OpcodeOf("MSET") == Mset
    ensures OpcodeOf("B.TEXT") == BText
  {
    hide IsCube, IsTlsu;
    assert |"B.TEXT"| == 6 && |"BSTART.TEPL"| == 11;
    NotHeader("B.TEXT");
    hide OpcodeOf;
    NotBlock("SWI");
    NotBlock("SETC.NE");
    NotBlock("SETC.LTU");
    NotBlock("SSRSET");
    NotBlock("MCOPY");
    NotBlock("MSET");
  }

  lemma {:induction false} NotHeader(name: string)
    requires |name| <= 10
    ensures !IsCube(name) && !IsTlsu(name)
  {
  }

  lemma {:induction false} TileOpcodes(name: string)
    ensures name == "BSTART.TEPL" ==> OpcodeOf(name) == TileHeader(Tepl)
    ensures (name in {"BSTART.TMATMUL", "BSTART.TMATMUL.ACC", "BSTART.TMATMUL.BIAS", "BSTART.TMATMULMX",
                      "BSTART.TMATMULMX.ACC", "BSTART.TMATMULMX.BIAS", "BSTART.TGEMV", "BSTART.TGEMV.ACC",
                      "BSTART.TGEMV.BIAS", "BSTART.TGEMVMX", "BSTART.TGEMVMX.ACC", "BSTART.TGEMVMX.BIAS"}) ==>
              OpcodeOf(name) == TileHeader(Cube)
    ensures (name in {"BSTART.TLOAD", "BSTART.TSTORE", "BSTART.TMOV", "BSTART.TPREFETCH", "BSTART.MGATHER",
                      "BSTART.MSCATTER", "BSTART.MGATHER.MASK", "BSTART.MSCATTER.MASK", "BSTART.MGATHER.CAS",
                      "BSTART.GMOV"}) ==>
              OpcodeOf(name) == TileHeader(Tlsu)
  {
    hide ScalarOpcode;
  }

  /** The implemented mnemonics; every other one is refused. */
  lemma {:induction false} ImplementedExactly(name: string)
    ensures OpcodeOf(name) != Unsupported <==>
            name in {"C.BSTART.STD", "C.BSTART.VPAR", "C.BSTART.VSEQ", "C.BSTART", "C.BSTOP", "C.MOVI", "C.MOVR",
                     "LUI", "HL.LUI", "HL.LIU", "HL.LIS", "ADDI", "LWI", "SWI", "SETC.NE", "SETC.LTU", "SSRSET",
                     "MCOPY", "MSET", "B.TEXT", "BSTART.TEPL",
                     "BSTART.TMATMUL", "BSTART.TMATMUL.ACC", "BSTART.TMATMUL.BIAS", "BSTART.TMATMULMX",
                     "BSTART.TMATMULMX.ACC", "BSTART.TMATMULMX.BIAS", "BSTART.TGEMV", "BSTART.TGEMV.ACC",
                     "BSTART.TGEMV.BIAS", "BSTART.TGEMVMX", "BSTART.TGEMVMX.ACC", "BSTART.TGEMVMX.BIAS",
                     "BSTART.TLOAD", "BSTART.TSTORE", "BSTART.TMOV", "BSTART.TPREFETCH", "BSTART.MGATHER",
                     "BSTART.MSCATTER", "BSTART.MGATHER.MASK", "BSTART.MSCATTER.MASK", "BSTART.MGATHER.CAS",
                     "BSTART.GMOV"}
  {
  }

  // ---------- Immediates and operands ----------

  predicate Absent(fields: seq<DecodedField>, name: string) {
    forall k :: 0 <= k < |fields| ==> fields[k].name != name
  }

  /** Field k is the first of this name. */
  predicate FieldAt(fields: seq<DecodedField>, name: string, k: int) {
    0 <= k < |fields| && fields[k].name == name && forall j :: 0 <= j < k ==> fields[j].name != name
  }

  /** The field that supplies an immediate: the first field of the first name that the packet has. */
  predicate Supplies(fields: seq<DecodedField>, names: seq<string>, i: int, k: int) {
    0 <= i < |names| && FieldAt(fields, names[i], k) && forall j :: 0 <= j < i ==> Absent(fields, names[j])
  }

  /** The signed immediate of an instruction is v, 0 when the packet has none of the names. */
  ghost predicate Signed(fields: seq<DecodedField>, names: seq<string>, v: int) {
    if forall j :: 0 <= j < |names| ==> Absent(fields, names[j]) then v == 0
    else exists i, k :: Supplies(fields, names, i, k) && fields[k].value == v
  }

  /** The unsigned immediate: the value modulo two to the power of the field's width. */
  ghost predicate Unsigned(fields: seq<DecodedField>, names: seq<string>, v: int) {
    if forall j :: 0 <= j < |names| ==> Absent(fields, names[j]) then v == 0
    else exists i, k :: Supplies(fields, names, i, k)
           && fields[k].value % Pow2(if fields[k].bitWidth < 64 then fields[k].bitWidth else 64) == v
  }

  /** Operand k, when there is one, is the register v is read from; registers 24 to 27 are the T queue and
      28 to 31 the U queue, newest first, and 0 and everything above 31 read as 0. */
  predicate Reads(r: Regs, ops: seq<Operand>, k: nat, v: int) {
    var idx := if k < |ops| then ops[k].value else 0;
    && (1 <= idx <= 23 ==> v == r.gpr[idx]) && (24 <= idx <= 27 ==> v == r.tq[idx - 24])
    && (28 <= idx <= 31 ==> v == r.uq[idx - 28]) && (idx == 0 || idx >= 32 ==> v == 0)
  }

  /** The first destination operand receives v: a register from 1 to 23, or with 31 and 30 the front of
      the T or the U queue. */
  predicate Receives(r: Regs, r': Regs, ops: seq<Operand>, v: u64) {
    var idx := if |ops| > 0 then ops[0].value else 0;
    && r'.gpr == (if 1 <= idx <= 23 then r.gpr[idx := v] else r.gpr)
    && r'.tq == (if idx == 31 then [v, r.tq[0], r.tq[1], r.tq[2]] else r.tq)
    && r'.uq == (if idx == 30 then [v, r.uq[0], r.uq[1], r.uq[2]] else r.uq)
  }

  lemma {:induction false} FoundField(fields: seq<DecodedField>, name: string) returns (k: int)
    ensures FindNamed(fields, DecodedName, name).None? <==> Absent(fields, name)
    ensures FindNamed(fields, DecodedName, name).Some? ==>
              FieldAt(fields, name, k) && FindNamed(fields, DecodedName, name).value == fields[k]
  {
    k := 0;
    if fields != [] && fields[0].name != name {
      k := FoundField(fields[1..], name);
      assert forall j :: 1 <= j < |fields| ==> fields[j] == fields[1..][j - 1];
      if FindNamed(fields, DecodedName, name).Some? {
        k := k + 1;
      }
    }
  }

  lemma {:induction false} OneField(fields: seq<DecodedField>, name: string, k: int)
    requires FieldAt(fields, name, k)
    ensures FindNamed(fields, DecodedName, name) == W.Some(fields[k])
  {
    var j := FoundField(fields, name);
  }

  /** Where the immediate comes from: the first of the names that the packet has. */
  lemma {:induction false} SupplierOf(fields: seq<DecodedField>, names: seq<string>) returns (i: int, k: int)
    requires exists j :: 0 <= j < |names| && !Absent(fields, names[j])
    ensures Supplies(fields, names, i, k)
    ensures SignedAny(fields, names) == fields[k].value && UnsignedAny(fields, names) == UnsignedValue(fields[k])
  {
    hide FindNamed, UnsignedValue;
    k := FoundField(fields, names[0]);
    if Absent(fields, names[0]) {
      var j :| 0 <= j < |names| && !Absent(fields, names[j]);
      assert names[1..][j - 1] == names[j];
      i, k := SupplierOf(fields, names[1..]);
      i := i + 1;
    } else {
      i := 0;
    }
  }

  lemma {:induction false} NoSupplier(fields: seq<DecodedField>, names: seq<string>)
    requires forall j :: 0 <= j < |names| ==> Absent(fields, names[j])
    ensures SignedAny(fields, names) == 0 && UnsignedAny(fields, names) == 0
  {
    hide FindNamed, UnsignedValue;
    if names != [] {
      var k := FoundField(fields, names[0]);
      NoSupplier(fields, names[1..]);
    }
  }

  lemma {:induction false} OneSupplier(fields: seq<DecodedField>, names: seq<string>, i: int, k: int, i': int, k': int)
    requires Supplies(fields, names, i, k) && Supplies(fields, names, i', k')
    ensures k == k'
  {
    assert !Absent(fields, names[i]) && !Absent(fields, names[i']);
  }

  lemma {:induction false} ImmediateMeaning(fields: seq<DecodedField>, names: seq<string>)
    ensures forall v :: Signed(fields, names, v) ==> v == SignedAny(fields, names)
    ensures forall v :: Unsigned(fields, names, v) ==> v == UnsignedAny(fields, names)
    ensures Signed(fields, names, SignedAny(fields, names)) && Unsigned(fields, names, UnsignedAny(fields, names))
  {
    hide SignedAny, UnsignedAny, UnsignedValue;
    if forall j :: 0 <= j < |names| ==> Absent(fields, names[j]) {
      NoSupplier(fields, names);
    } else {
      var i, k := SupplierOf(fields, names);
      UnsignedIsModulo(fields[k]);
      forall i', k' | Supplies(fields, names, i', k')
        ensures k' == k
      {
        OneSupplier(fields, names, i, k, i', k');
      }
    }
  }

  lemma {:induction false} ReadsMeaning(r: Regs, ops: seq<Operand>, k: nat)
    ensures forall v :: Reads(r, ops, k, v) <==> v == ReadGpr(r, OperandAt(ops, k))
  {
  }
}
