/** The table generator: instructions given part by part become flat form, field, piece and
    constraint tables. */
module Generator {
  import opened Words
  import W = Wrappers
  import opened CodecTables

  datatype SpecField = SpecField(name: string, signed: W.Option<bool>, pieces: seq<Piece>)

  datatype Part = Part(widthBits: nat, pattern: string, fields: seq<SpecField>, constraints: seq<Constraint>)

  datatype Instruction = Instruction(
    uid: string, mnemonic: string, asm: string, parts: seq<Part>, lengthBits: W.Option<nat>)

  // ---------- Patterns ----------

  /** `replace(" ", "")`. */
  function Strip(s: string): string {
    if s == [] then [] else (if s[0] == ' ' then [] else [s[0]]) + Strip(s[1..])
  }

  function TotalWidth(parts: seq<Part>): nat {
    if parts == [] then 0 else TotalWidth(parts[..|parts| - 1]) + parts[|parts| - 1].widthBits
  }

  /** Bit offset of part i: the widths of the parts before it. */
  function Offset(parts: seq<Part>, i: nat): nat
    requires i <= |parts|
  {
    TotalWidth(parts[..i])
  }

  /** Later parts hold higher bits, so their pattern text comes first. */
  function JoinedPattern(parts: seq<Part>): string {
    if parts == [] then []
    else Strip(parts[|parts| - 1].pattern) + JoinedPattern(parts[..|parts| - 1])
  }

  function LengthBits(inst: Instruction): nat {
    match inst.lengthBits
    case Some(n) => n
    case None => |JoinedPattern(inst.parts)|
  }

  /** `(("." * n) + p)[-n:]` unless the length already agrees; a slice from -0 is the whole string. */
  function FitPattern(p: string, length: nat): string {
    if |p| == length || length == 0 then p
    else
      var padded := seq(length, (i: int) => '.') + p;
      padded[|padded| - length..]
  }

  function FormPattern(inst: Instruction): string {
    FitPattern(JoinedPattern(inst.parts), LengthBits(inst))
  }

  /** The pattern character that speaks for bit b. */
  function BitChar(p: string, b: nat): char
    requires b < |p|
  {
    p[|p| - 1 - b]
  }

  /** The bits of the mask, of any length: a Python integer. */
  function MaskBits(p: string): (bits: seq<bool>)
    ensures |bits| == |p|
  {
    seq(|p|, (b: int) requires 0 <= b < |p| => BitChar(p, b) != '.')
  }

  function MatchBits(p: string): (bits: seq<bool>)
    ensures |bits| == |p|
  {
    seq(|p|, (b: int) requires 0 <= b < |p| => BitChar(p, b) == '1')
  }

  /** What a 64-bit table column holds of such an integer. */
  function Low64(bits: seq<bool>): Word {
    seq(64, (b: int) requires 0 <= b < 64 => b < |bits| && bits[b])
  }

  function MaskWord(p: string): (w: Word)
    ensures forall b :: 0 <= b < 64 ==> w[b] == (b < |p| && BitChar(p, b) != '.')
  {
    Low64(MaskBits(p))
  }

  function MatchWord(p: string): (w: Word)
    ensures forall b :: 0 <= b < 64 ==> w[b] == (b < |p| && BitChar(p, b) == '1')
  {
    Low64(MatchBits(p))
  }

  function CountOnes(s: seq<bool>): nat {
    if s == [] then 0 else (if s[0] then 1 else 0) + CountOnes(s[1..])
  }

  method PatternToMaskMatch(p: string) returns (mask: seq<bool>, pattern: seq<bool>)
    ensures mask == MaskBits(p) && pattern == MatchBits(p)
  {
    mask, pattern := seq(|p|, (b: int) => false), seq(|p|, (b: int) => false);
    for idx := 0 to |p|
      invariant |mask| == |pattern| == |p|
      invariant forall b :: 0 <= b < |p| ==> mask[b] == (|p| - idx <= b && BitChar(p, b) != '.')
      invariant forall b :: 0 <= b < |p| ==> pattern[b] == (|p| - idx <= b && BitChar(p, b) == '1')
    {
      var bit := |p| - 1 - idx;
      if p[idx] == '.' {
        continue;
      }
      if p[idx] == '1' {
        pattern := pattern[bit := true];
      }
      mask := mask[bit := true];
    }
  }

  // ---------- Fields ----------

  datatype Merged = Merged(signedHint: int, pieces: seq<Piece>)

  /** The merge dictionary and the order in which names first appeared. */
  datatype MergeState = MergeState(order: seq<string>, fields: map<string, Merged>)

  function MergeHint(hint: int, signed: W.Option<bool>): int {
    if signed == W.Some(true) then 1
    else if signed == W.Some(false) && hint < 0 then 0
    else hint
  }

  function ShiftPiece(p: Piece, offset: nat): Piece {
    Piece(p.insnLsb + offset, p.width, p.valueLsb)
  }

  function ShiftPieces(ps: seq<Piece>, offset: nat): (r: seq<Piece>)
    ensures |r| == |ps| && forall k :: 0 <= k < |ps| ==> r[k] == ShiftPiece(ps[k], offset)
  {
    seq(|ps|, (k: int) requires 0 <= k < |ps| => ShiftPiece(ps[k], offset))
  }

  function Entry(m: MergeState, name: string): Merged {
    if name in m.fields then m.fields[name] else Merged(-1, [])
  }

  function MergeField(m: MergeState, f: SpecField, offset: nat): MergeState {
    var e := Entry(m, f.name);
    MergeState(
      if f.name in m.fields then m.order else m.order + [f.name],
      m.fields[f.name := Merged(MergeHint(e.signedHint, f.signed), e.pieces + ShiftPieces(f.pieces, offset))])
  }

  function MergeFields(m: MergeState, fs: seq<SpecField>, offset: nat): MergeState {
    if fs == [] then m
    else MergeField(MergeFields(m, fs[..|fs| - 1], offset), fs[|fs| - 1], offset)
  }

  function MergeParts(parts: seq<Part>): MergeState {
    if parts == [] then MergeState([], map[])
    else
      var n := |parts| - 1;
      MergeFields(MergeParts(parts[..n]), parts[n].fields, Offset(parts, n))
  }

  function PartsConstraints(parts: seq<Part>): seq<Constraint> {
    if parts == [] then []
    else PartsConstraints(parts[..|parts| - 1]) + parts[|parts| - 1].constraints
  }

  /** Python's sort by (value_lsb, insn_lsb) is stable, as is insertion. */
  predicate Before(p: Piece, q: Piece) {
    p.valueLsb < q.valueLsb || (p.valueLsb == q.valueLsb && p.insnLsb < q.insnLsb)
  }

  function Insert(p: Piece, sorted: seq<Piece>): seq<Piece> {
    if sorted == [] || Before(p, sorted[0]) then [p] + sorted
    else [sorted[0]] + Insert(p, sorted[1..])
  }

  function SortPieces(ps: seq<Piece>): seq<Piece> {
    if ps == [] then [] else Insert(ps[|ps| - 1], SortPieces(ps[..|ps| - 1]))
  }

  function WidthOf(ps: seq<Piece>): nat {
    if ps == [] then 0
    else
      var n := |ps| - 1;
      var rest := WidthOf(ps[..n]);
      if ps[n].valueLsb + ps[n].width > rest then ps[n].valueLsb + ps[n].width else rest
  }

  // ---------- The flat tables ----------

  /** A table entry describes an instruction: its own ranges, read back, give its own data. */
  predicate FieldDescribes(t: Table, f: Field, name: string, e: Merged) {
    && f.name == name && f.signedHint == e.signedHint
    && f.bitWidth == WidthOf(SortPieces(e.pieces))
    && f.pieceStart + f.pieceCount <= |t.pieces|
    && PiecesFor(t, f) == SortPieces(e.pieces)
  }

  predicate FieldsDescribe(t: Table, fs: seq<Field>, m: MergeState) {
    && |fs| == |m.order|
    && forall j :: 0 <= j < |fs| ==> FieldDescribes(t, fs[j], m.order[j], Entry(m, m.order[j]))
  }

  predicate FormHeader(form: Form, inst: Instruction) {
    && form.uid == inst.uid && form.mnemonic == inst.mnemonic && form.asmTemplate == inst.asm
    && form.lengthBits == LengthBits(inst)
    && form.mask == MaskWord(FormPattern(inst)) && form.pattern == MatchWord(FormPattern(inst))
    && form.fixedBits == CountOnes(MaskBits(FormPattern(inst)))
  }

  predicate Describes(t: Table, form: Form, inst: Instruction) {
    && FormHeader(form, inst)
    && form.fieldStart + form.fieldCount <= |t.fields|
    && form.constraintStart + form.constraintCount <= |t.constraints|
    && FieldsDescribe(t, FieldsFor(t, form), MergeParts(inst.parts))
    && ConstraintsFor(t, form) == PartsConstraints(inst.parts)
  }

  /** Everything built so far stays where it is when the tables grow at the end. */
  predicate Grows(t: Table, t': Table) {
    t.forms <= t'.forms && t.fields <= t'.fields && t.pieces <= t'.pieces && t.constraints <= t'.constraints
  }

  lemma {:induction false} DescribesGrows(t: Table, t': Table, form: Form, inst: Instruction)
    requires Describes(t, form, inst) && Grows(t, t')
    ensures Describes(t', form, inst)
  {
    assert FieldsFor(t', form) == FieldsFor(t, form);
    assert ConstraintsFor(t', form) == ConstraintsFor(t, form);
    FieldsDescribeGrow(t, t', FieldsFor(t, form), MergeParts(inst.parts));
  }

  lemma {:induction false} FieldsDescribeGrow(t: Table, t': Table, fs: seq<Field>, m: MergeState)
    requires FieldsDescribe(t, fs, m) && t.pieces <= t'.pieces
    ensures FieldsDescribe(t', fs, m)
  {
    forall j | 0 <= j < |fs|
      ensures FieldDescribes(t', fs[j], m.order[j], Entry(m, m.order[j]))
    {
      assert FieldDescribes(t, fs[j], m.order[j], Entry(m, m.order[j]));
      assert PiecesFor(t', fs[j]) == PiecesFor(t, fs[j]);
    }
  }

  /** The loop over the fields of one part. */
  method MergePart(m: MergeState, fs: seq<SpecField>, offset: nat) returns (m': MergeState)
    ensures m' == MergeFields(m, fs, offset)
  {
    var order, fields := m.order, m.fields;
    for j := 0 to |fs|
      invariant MergeState(order, fields) == MergeFields(m, fs[..j], offset)
    {
      assert fs[..j + 1][..j] == fs[..j];
      var f := fs[j];
      ghost var before := MergeState(order, fields);
      if f.name !in fields {
        fields := fields[f.name := Merged(-1, [])];
        order := order + [f.name];
      }
      var hint := fields[f.name].signedHint;
      if f.signed == W.Some(true) {
        hint := 1;
      } else if f.signed == W.Some(false) && hint < 0 {
        hint := 0;
      }
      fields := fields[f.name := Merged(hint, fields[f.name].pieces + ShiftPieces(f.pieces, offset))];
      assert fields == MergeField(before, f, offset).fields;
    }
    assert fs[..|fs|] == fs;
    m' := MergeState(order, fields);
  }

  /** The loop over the parts: merge the fields, collect the constraints, move the offset on. */
  method MergeInstruction(parts: seq<Part>) returns (m: MergeState, constraints: seq<Constraint>)
    ensures m == MergeParts(parts) && constraints == PartsConstraints(parts)
  {
    m, constraints := MergeState([], map[]), [];
    var offset := 0;
    for i := 0 to |parts|
      invariant offset == Offset(parts, i)
      invariant m == MergeParts(parts[..i])
      invariant constraints == PartsConstraints(parts[..i])
    {
      assert parts[..i + 1][..i] == parts[..i];
      m := MergePart(m, parts[i].fields, offset);
      constraints := constraints + parts[i].constraints;
      offset := offset + parts[i].widthBits;
    }
    assert parts[..|parts|] == parts;
  }

  /** The loop over the merged fields of one instruction: append each field and its pieces. */
  method AppendFields(t: Table, m: MergeState) returns (t': Table)
    ensures Grows(t, t') && t'.forms == t.forms && t'.constraints == t.constraints
    ensures |t'.fields| == |t.fields| + |m.order|
    ensures FieldsDescribe(t', t'.fields[|t.fields|..], m)
  {
    t' := t;
    for j := 0 to |m.order|
      invariant Grows(t, t') && t'.forms == t.forms && t'.constraints == t.constraints
      invariant |t'.fields| == |t.fields| + j
      invariant FieldsDescribe(t', t'.fields[|t.fields|..], m.(order := m.order[..j]))
    {
      t' := AppendField(t', |t.fields|, m, j);
    }
    assert m.order[..|m.order|] == m.order;
  }

  method AppendField(t: Table, start: nat, m: MergeState, j: nat) returns (t': Table)
    requires j < |m.order| && start <= |t.fields|
    requires FieldsDescribe(t, t.fields[start..], m.(order := m.order[..j]))
    ensures Grows(t, t') && t'.forms == t.forms && t'.constraints == t.constraints
    ensures |t'.fields| == |t.fields| + 1
    ensures FieldsDescribe(t', t'.fields[start..], m.(order := m.order[..j + 1]))
  {
    var e := Entry(m, m.order[j]);
    var sorted := SortPieces(e.pieces);
    var field := Field(m.order[j], e.signedHint, WidthOf(sorted), |t.pieces|, |sorted|);
    t' := t.(pieces := t.pieces + sorted, fields := t.fields + [field]);
    assert PiecesFor(t', field) == sorted;
    FieldsDescribeGrow(t, t', t.fields[start..], m.(order := m.order[..j]));
    assert t'.fields[start..] == t.fields[start..] + [field];
    ghost var more := m.(order := m.order[..j + 1]);
    forall k | 0 <= k < |more.order|
      ensures FieldDescribes(t', t'.fields[start..][k], more.order[k], Entry(more, more.order[k]))
    {
      if k < j {
        assert FieldDescribes(t', t.fields[start..][k], m.order[..j][k], Entry(m, m.order[..j][k]));
      }
    }
  }

  method BuildForms(insts: seq<Instruction>) returns (t: Table)
    ensures |t.forms| == |insts|
    ensures forall k :: 0 <= k < |insts| ==> Describes(t, t.forms[k], insts[k])
  {
    hide FitPattern, JoinedPattern, Strip, BitChar, MergeParts, PartsConstraints, FieldsDescribe, CountOnes;
    t := Table([], [], [], []);
    for i := 0 to |insts|
      invariant |t.forms| == i
      invariant forall k :: 0 <= k < i ==> Describes(t, t.forms[k], insts[k])
    {
      var inst := insts[i];
      var mask, pattern := PatternToMaskMatch(FormPattern(inst));
      var m, constraints := MergeInstruction(inst.parts);
      var before := t;
      t := AppendFields(t, m);
      var form := Form(inst.uid, inst.mnemonic, inst.asm, LengthBits(inst), CountOnes(mask),
                       Low64(mask), Low64(pattern),
                       |before.fields|, |t.fields| - |before.fields|, |t.constraints|, |constraints|);
      t := AddForm(t, form, constraints, inst);
      forall k | 0 <= k < i
        ensures Describes(t, t.forms[k], insts[k])
      {
        DescribesGrows(before, t, before.forms[k], insts[k]);
      }
    }
  }

  method AddForm(t: Table, form: Form, constraints: seq<Constraint>, inst: Instruction) returns (t': Table)
    requires FormHeader(form, inst)
    requires form.fieldStart + form.fieldCount == |t.fields|
    requires FieldsDescribe(t, t.fields[form.fieldStart..], MergeParts(inst.parts))
    requires form.constraintStart == |t.constraints| && form.constraintCount == |constraints|
    requires constraints == PartsConstraints(inst.parts)
    ensures Grows(t, t') && t'.forms == t.forms + [form]
    ensures Describes(t', form, inst)
  {
    t' := t.(forms := t.forms + [form], constraints := t.constraints + constraints);
    assert FieldsFor(t', form) == t.fields[form.fieldStart..];
    assert ConstraintsFor(t', form) == constraints;
    FieldsDescribeGrow(t, t', t.fields[form.fieldStart..], MergeParts(inst.parts));
  }
}
