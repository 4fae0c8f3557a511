/** The codec's flat tables, the decoded packet, and what one form says about one word. */
module CodecTables {
  import opened Words
  import opened Wrappers

  datatype ConstraintOp = Eq | Ne | Lt | Le | Gt | Ge

  datatype Piece = Piece(insnLsb: nat, width: nat, valueLsb: nat)

  datatype Field = Field(name: string, signedHint: int, bitWidth: nat, pieceStart: nat, pieceCount: nat)

  datatype Constraint = Constraint(fieldName: string, op: ConstraintOp, value: int)

  datatype Form = Form(
    uid: string, mnemonic: string, asmTemplate: string,
    lengthBits: nat, fixedBits: nat, mask: Word, pattern: Word,
    fieldStart: nat, fieldCount: nat, constraintStart: nat, constraintCount: nat)

  datatype Table = Table(
    forms: seq<Form>, fields: seq<Field>, pieces: seq<Piece>, constraints: seq<Constraint>)

  datatype CodecStatus =
    | Ok | InvalidLength | NoMatch | AmbiguousMatch | ConstraintViolation
    | InvalidForm | MissingField | ValueOutOfRange

  datatype DecodedField = DecodedField(name: string, signedHint: bool, bitWidth: nat, value: i64)

  /** A C++ span over a flat table; a range outside the table is undefined there and empty here. */
  function Span<T>(s: seq<T>, start: nat, count: nat): (r: seq<T>) {
    if start + count <= |s| then s[start..start + count] else []
  }

  function FieldsFor(t: Table, form: Form): seq<Field> {
    Span(t.fields, form.fieldStart, form.fieldCount)
  }

  function ConstraintsFor(t: Table, form: Form): seq<Constraint> {
    Span(t.constraints, form.constraintStart, form.constraintCount)
  }

  function PiecesFor(t: Table, field: Field): seq<Piece> {
    Span(t.pieces, field.pieceStart, field.pieceCount)
  }

  predicate EvaluateConstraint(op: ConstraintOp, lhs: int, rhs: int) {
    match op
    case Eq => lhs == rhs
    case Ne => lhs != rhs
    case Lt => lhs < rhs
    case Le => lhs <= rhs
    case Gt => lhs > rhs
    case Ge => lhs >= rhs
  }

  function FieldName(f: Field): string {
    f.name
  }

  function DecodedName(f: DecodedField): string {
    f.name
  }

  /** `std::find_if` by name, over the descriptors of a form and, in `Minst::FindDecodedField`, over the
      fields of a packet: the first item of that name. */
  function FindNamed<T>(items: seq<T>, nameOf: T -> string, name: string): (r: Option<T>)
    ensures r.Some? ==> r.value in items && nameOf(r.value) == name
    ensures r.Some? ==>
      exists k :: 0 <= k < |items| && items[k] == r.value && forall j :: 0 <= j < k ==> nameOf(items[j]) != name
    ensures r.None? <==> forall k :: 0 <= k < |items| ==> nameOf(items[k]) != name
  {
    if items == [] then None
    else if nameOf(items[0]) == name then Some(items[0])
    else
      var r := FindNamed(items[1..], nameOf, name);
      assert items == [items[0]] + items[1..];
      r
  }

  // ---------- Reading a field out of a word ----------

  function PieceBits(p: Piece, packed: Word): Word {
    Shl(And(Shr(packed, p.insnLsb), Mask(p.width)), p.valueLsb)
  }

  /** The value bits gathered from the pieces of a field, in table order. */
  function RawBits(pieces: seq<Piece>, packed: Word): Word {
    if pieces == [] then Zero()
    else Or(RawBits(pieces[..|pieces| - 1], packed), PieceBits(pieces[|pieces| - 1], packed))
  }

  function ExtractFieldValue(t: Table, field: Field, packed: Word): (v: i64) {
    var raw := RawBits(PiecesFor(t, field), packed);
    SignExtendRange(raw, field.bitWidth);
    CastRange(raw);
    if field.signedHint > 0 then SignExtend(raw, field.bitWidth) else ToInt64(raw)
  }

  lemma {:induction false} SignExtendRange(raw: Word, width: nat)
    ensures -TWO_63 <= SignExtend(raw, width) < TWO_63
  {
    CastRange(raw);
    CastRange(Or(raw, Not(Mask(width))));
  }

  /** Bit b of the value comes from this piece and is set in the word. */
  predicate ValueHit(p: Piece, packed: Word, b: int) {
    && p.valueLsb <= b < p.valueLsb + p.width
    && p.insnLsb + (b - p.valueLsb) < 64
    && packed[p.insnLsb + (b - p.valueLsb)]
  }

  /** Gathering is a bitwise question, so the order of the pieces does not matter. */
  lemma {:induction false} RawBit(pieces: seq<Piece>, packed: Word, b: nat)
    requires b < 64
    ensures RawBits(pieces, packed)[b] <==> exists p :: p in pieces && ValueHit(p, packed, b)
  {
    if pieces != [] {
      var n := |pieces| - 1;
      RawBit(pieces[..n], packed, b);
      assert pieces == pieces[..n] + [pieces[n]];
      assert PieceBits(pieces[n], packed)[b] <==> ValueHit(pieces[n], packed, b);
    }
  }

  // ---------- When a form accepts a word ----------

  predicate FormMatches(form: Form, length: int, packed: Word) {
    form.lengthBits == length && And(packed, form.mask) == form.pattern
  }

  predicate ConstraintHolds(t: Table, form: Form, c: Constraint, packed: Word) {
    var f := FindNamed(FieldsFor(t, form), FieldName, c.fieldName);
    f.Some? && EvaluateConstraint(c.op, ExtractFieldValue(t, f.value, packed), c.value)
  }

  predicate ConstraintsHold(t: Table, form: Form, packed: Word) {
    forall c :: c in ConstraintsFor(t, form) ==> ConstraintHolds(t, form, c, packed)
  }

  predicate Passes(t: Table, form: Form, length: int, packed: Word) {
    FormMatches(form, length, packed) && ConstraintsHold(t, form, packed)
  }

  // ---------- The packet ----------

  datatype Operand = Operand(value: u64, encodedBits: nat, fieldName: string)

  predicate StartsWith(value: string, prefix: string) {
    |prefix| <= |value| && value[..|prefix|] == prefix
  }

  predicate IsDestinationField(name: string) {
    StartsWith(name, "RegDst") || StartsWith(name, "Dst") || name == "rd"
  }

  predicate IsSourceField(name: string) {
    StartsWith(name, "Src") || StartsWith(name, "RegSrc") || name in {"rs1", "rs2", "rs3"}
  }

  /** `MinstDecodedField::UnsignedValue`. */
  function UnsignedValue(f: DecodedField): (v: u64) {
    var w := And(FromInt64(f.value), Mask(f.bitWidth));
    ToNatBound(w);
    Pow64();
    ToNat(w)
  }

  function OperandOf(f: DecodedField): Operand {
    Operand(UnsignedValue(f), f.bitWidth, f.name)
  }

  function Sources(fields: seq<DecodedField>): seq<Operand> {
    if fields == [] then []
    else
      var n := |fields| - 1;
      Sources(fields[..n]) + if IsSourceField(fields[n].name) then [OperandOf(fields[n])] else []
  }

  function Destinations(fields: seq<DecodedField>): seq<Operand> {
    if fields == [] then []
    else
      var n := |fields| - 1;
      Destinations(fields[..n]) +
      if !IsSourceField(fields[n].name) && IsDestinationField(fields[n].name) then [OperandOf(fields[n])] else []
  }

  /** What decoding leaves in a packet. */
  datatype Decoded = Decoded(
    form: Option<Form>, validForm: bool, decodeStatus: CodecStatus, encodeStatus: CodecStatus,
    rawBits: Word, lengthBits: nat, codeBytes: nat,
    fields: seq<DecodedField>, srcs: seq<Operand>, dsts: seq<Operand>)

  /** `Minst::SetDecodedField` on the field list: overwrite the first field of that name, or append. */
  function Upsert(fields: seq<DecodedField>, f: DecodedField): seq<DecodedField> {
    if fields == [] then [f]
    else if fields[0].name == f.name then [f] + fields[1..]
    else [fields[0]] + Upsert(fields[1..], f)
  }

  function DecodedFieldOf(t: Table, f: Field, packed: Word): DecodedField {
    DecodedField(f.name, f.signedHint > 0, f.bitWidth, ExtractFieldValue(t, f, packed))
  }

  /** The field list after writing the fields of a form in table order. */
  function DecodedFields(t: Table, fields: seq<Field>, packed: Word): seq<DecodedField> {
    if fields == [] then []
    else
      var n := |fields| - 1;
      Upsert(DecodedFields(t, fields[..n], packed), DecodedFieldOf(t, fields[n], packed))
  }
}
