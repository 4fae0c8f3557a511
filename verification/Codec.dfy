/** Decoding a packed word into a packet and encoding a packet back into a word. */
module Codec {
  import opened Words
  import W = Wrappers
  import opened CodecTables

  // ---------- Which form a word decodes to, as a statement about the table ----------

  ghost predicate SomeMatch(t: Table, length: int, packed: Word) {
    exists k :: 0 <= k < |t.forms| && FormMatches(t.forms[k], length, packed)
  }

  ghost predicate SomePass(t: Table, length: int, packed: Word) {
    exists k :: 0 <= k < |t.forms| && Passes(t, t.forms[k], length, packed)
  }

  /** Entry k passes and has strictly more fixed bits than every other passing entry. */
  ghost predicate Winner(t: Table, length: int, packed: Word, k: int) {
    && 0 <= k < |t.forms|
    && Passes(t, t.forms[k], length, packed)
    && forall j :: 0 <= j < |t.forms| && j != k && Passes(t, t.forms[j], length, packed)
         ==> t.forms[j].fixedBits < t.forms[k].fixedBits
  }

  datatype Choice = Chosen(form: Form) | Rejected(status: CodecStatus)

  ghost function Choose(t: Table, length: int, packed: Word): Choice {
    if exists k :: Winner(t, length, packed, k) then
      var k :| Winner(t, length, packed, k);
      Chosen(t.forms[k])
    else if SomePass(t, length, packed) then Rejected(AmbiguousMatch)
    else if SomeMatch(t, length, packed) then Rejected(ConstraintViolation)
    else Rejected(NoMatch)
  }

  predicate ValidLength(length: int) {
    length == 16 || length == 32 || length == 48 || length == 64
  }

  /** Everything decoding leaves in the packet, whatever the packet held before. */
  ghost function DecodedWord(t: Table, packed: Word, length: int): Decoded {
    if !ValidLength(length) then
      Decoded(W.None, false, InvalidLength, InvalidForm, packed, 0, 0, [], [], [])
    else
      var w := And(packed, Mask(length));
      match Choose(t, length, w)
      case Chosen(form) =>
        var fields := DecodedFields(t, FieldsFor(t, form), w);
        Decoded(W.Some(form), true, Ok, Ok, w, length, (length + 7) / 8,
                fields, Sources(fields), Destinations(fields))
      case Rejected(status) =>
        Decoded(W.None, false, status, InvalidForm, w, length, (length + 7) / 8, [], [], [])
  }

  // ---------- The packet object ----------

  /** Where an overwrite lands: at the first field of that name, or past the end. */
  lemma {:induction false} UpsertAt(fields: seq<DecodedField>, f: DecodedField, k: nat)
    requires k <= |fields| && forall j :: 0 <= j < k ==> fields[j].name != f.name
    requires k < |fields| ==> fields[k].name == f.name
    ensures Upsert(fields, f) == if k < |fields| then fields[k := f] else fields + [f]
  {
    if k > 0 {
      UpsertAt(fields[1..], f, k - 1);
    }
  }

  class Minst {
    var uid: u64
    var pc: u64
    var nextPc: u64
    var form: W.Option<Form>
    var validForm: bool
    var decodeStatus: CodecStatus
    var encodeStatus: CodecStatus
    var rawBits: Word
    var lengthBits: nat
    var codeBytes: nat
    var decodedFields: seq<DecodedField>
    var srcs: seq<Operand>
    var dsts: seq<Operand>

    function Data(): Decoded
      reads this
    {
      Decoded(form, validForm, decodeStatus, encodeStatus, rawBits, lengthBits, codeBytes,
              decodedFields, srcs, dsts)
    }

    /** `Minst::CreateFetch`. */
    constructor CreateFetch(uid: u64, pc: u64, raw: Word, codeSize: u8)
      ensures this.uid == uid && this.pc == pc && nextPc == (pc + codeSize) % TWO_64
      ensures
        var length := codeSize * 8 % 256;
        Data() == Decoded(W.None, false, NoMatch, InvalidForm, raw, length, (length + 7) / 8, [], [], [])
    {
      this.uid, this.pc, nextPc := uid, pc, (pc + codeSize) % TWO_64;
      form, validForm, decodeStatus, encodeStatus := W.None, false, NoMatch, InvalidForm;
      rawBits, lengthBits, codeBytes := raw, codeSize * 8 % 256, (codeSize * 8 % 256 + 7) / 8;
      decodedFields, srcs, dsts := [], [], [];
    }

    method ClearDecodedState()
      modifies this
      ensures uid == old(uid) && pc == old(pc) && nextPc == old(nextPc)
      ensures Data() == Decoded(W.None, false, NoMatch, InvalidForm,
                                old(rawBits), old(lengthBits), old(codeBytes), [], [], [])
    {
      form, validForm, decodeStatus, encodeStatus := W.None, false, NoMatch, InvalidForm;
      decodedFields, srcs, dsts := [], [], [];
    }

    method SetForm(desc: W.Option<Form>)
      modifies this
      ensures uid == old(uid) && pc == old(pc) && nextPc == old(nextPc)
      ensures desc.None? ==> Data() == old(Data()).(form := desc, validForm := false)
      ensures desc.Some? ==> Data() == old(Data()).(form := desc, validForm := true,
                lengthBits := desc.value.lengthBits % 256, codeBytes := (desc.value.lengthBits + 7) / 8 % 256)
    {
      form, validForm := desc, desc.Some?;
      if desc.Some? {
        lengthBits, codeBytes := desc.value.lengthBits % 256, (desc.value.lengthBits + 7) / 8 % 256;
      }
    }

    method SetRawEncoding(bits: Word, length: nat)
      modifies this
      ensures uid == old(uid) && pc == old(pc) && nextPc == old(nextPc)
      ensures Data() == old(Data()).(rawBits := bits, lengthBits := length, codeBytes := (length + 7) / 8)
    {
      rawBits, lengthBits, codeBytes := bits, length, (length + 7) / 8;
    }

    /** Overwrites the first field of that name in place, or appends a new one. */
    method SetDecodedField(field: DecodedField)
      modifies this
      ensures uid == old(uid) && pc == old(pc) && nextPc == old(nextPc)
      ensures Data() == old(Data()).(fields := Upsert(old(decodedFields), field))
    {
      var k := 0;
      while k < |decodedFields| && decodedFields[k].name != field.name
        invariant k <= |decodedFields|
        invariant forall j :: 0 <= j < k ==> decodedFields[j].name != field.name
      {
        k := k + 1;
      }
      UpsertAt(decodedFields, field, k);
      if k == |decodedFields| {
        decodedFields := decodedFields + [field];
      } else {
        decodedFields := decodedFields[k := field];
      }
    }

    /** The operand lists of `RebuildTypedViews`. */
    method RebuildTypedViews()
      modifies this
      ensures uid == old(uid) && pc == old(pc) && nextPc == old(nextPc)
      ensures Data() == old(Data()).(srcs := Sources(old(decodedFields)), dsts := Destinations(old(decodedFields)))
    {
      srcs, dsts := [], [];
      for i := 0 to |decodedFields|
        invariant decodedFields == old(decodedFields)
        invariant srcs == Sources(decodedFields[..i]) && dsts == Destinations(decodedFields[..i])
        invariant uid == old(uid) && pc == old(pc) && nextPc == old(nextPc)
        invariant Data() == old(Data()).(srcs := srcs, dsts := dsts)
      {
        var f := decodedFields[i];
        assert decodedFields[..i + 1][..i] == decodedFields[..i];
        if IsSourceField(f.name) {
          srcs := srcs + [OperandOf(f)];
        } else if IsDestinationField(f.name) {
          dsts := dsts + [OperandOf(f)];
        }
      }
      assert decodedFields[..|decodedFields|] == decodedFields;
    }
  }

  // ---------- Decoding ----------

  method ExtractField(t: Table, field: Field, packed: Word) returns (value: i64)
    ensures value == ExtractFieldValue(t, field, packed)
  {
    var raw := Zero();
    var pieces := PiecesFor(t, field);
    for i := 0 to |pieces|
      invariant raw == RawBits(pieces[..i], packed)
    {
      assert pieces[..i + 1][..i] == pieces[..i];
      raw := Or(raw, PieceBits(pieces[i], packed));
    }
    assert pieces[..|pieces|] == pieces;
    SignExtendRange(raw, field.bitWidth);
    CastRange(raw);
    if field.signedHint > 0 {
      return SignExtend(raw, field.bitWidth);
    }
    return ToInt64(raw);
  }

  method CheckConstraints(t: Table, form: Form, packed: Word) returns (ok: bool)
    ensures ok == ConstraintsHold(t, form, packed)
  {
    var cs := ConstraintsFor(t, form);
    for i := 0 to |cs|
      invariant forall c :: c in cs[..i] ==> ConstraintHolds(t, form, c, packed)
    {
      var f := FindNamed(FieldsFor(t, form), FieldName, cs[i].fieldName);
      assert cs[i] in ConstraintsFor(t, form);
      if f.None? {
        return false;
      }
      var value := ExtractField(t, f.value, packed);
      if !EvaluateConstraint(cs[i].op, value, cs[i].value) {
        return false;
      }
    }
    return true;
  }

  /** The one pass over the form table: the best entries so far, their fixed-bit count, and
      whether any mask matched. */
  method ScanForms(t: Table, length: int, packed: Word) returns (valid: seq<Form>, sawFixed: bool)
    ensures sawFixed == SomeMatch(t, length, packed)
    ensures |valid| == 0 <==> !SomePass(t, length, packed)
    ensures |valid| == 1 ==> exists k :: Winner(t, length, packed, k) && t.forms[k] == valid[0]
    ensures |valid| >= 2 ==> forall k :: !Winner(t, length, packed, k)
  {
    valid, sawFixed := [], false;
    var best: int := -1;
    ghost var first, second := 0, 0;
    for i := 0 to |t.forms|
      invariant sawFixed <==> exists k :: 0 <= k < i && FormMatches(t.forms[k], length, packed)
      invariant valid == [] ==> best == -1 && forall k :: 0 <= k < i ==> !Passes(t, t.forms[k], length, packed)
      invariant forall k :: 0 <= k < i && Passes(t, t.forms[k], length, packed) ==> t.forms[k].fixedBits <= best
      invariant valid != [] ==>
        && 0 <= first < i && Passes(t, t.forms[first], length, packed)
        && t.forms[first].fixedBits == best && valid[0] == t.forms[first]
      invariant |valid| == 1 ==>
        forall k :: 0 <= k < i && k != first && Passes(t, t.forms[k], length, packed) ==> t.forms[k].fixedBits < best
      invariant |valid| >= 2 ==>
        && 0 <= second < i && second != first && Passes(t, t.forms[second], length, packed)
        && t.forms[second].fixedBits == best
    {
      var form := t.forms[i];
      if form.lengthBits != length || And(packed, form.mask) != form.pattern {
        continue;
      }
      sawFixed := true;
      var ok := CheckConstraints(t, form, packed);
      if !ok {
        continue;
      }
      assert Passes(t, t.forms[i], length, packed);
      if form.fixedBits > best {
        valid, best, first := [form], form.fixedBits, i;
      } else if form.fixedBits == best {
        valid, second := valid + [form], i;
      }
    }
    if |valid| == 1 {
      assert Winner(t, length, packed, first);
    }
  }

  lemma {:induction false} WinnerUnique(t: Table, length: int, packed: Word, k: int)
    requires Winner(t, length, packed, k)
    ensures Choose(t, length, packed) == Chosen(t.forms[k])
  {
    forall j | Winner(t, length, packed, j)
      ensures j == k
    {
    }
  }

  /** The last part of a successful decode: the form, then its fields in table order, then the views. */
  method FillPacket(t: Table, form: Form, packed: Word, length: nat, out: Minst)
    requires form.lengthBits == length && length < 256
    requires out.Data() == Decoded(W.None, false, NoMatch, InvalidForm, packed, length, (length + 7) / 8, [], [], [])
    modifies out
    ensures out.uid == old(out.uid) && out.pc == old(out.pc) && out.nextPc == old(out.nextPc)
    ensures
      var fields := DecodedFields(t, FieldsFor(t, form), packed);
      out.Data() == Decoded(W.Some(form), true, Ok, Ok, packed, length, (length + 7) / 8,
                            fields, Sources(fields), Destinations(fields))
  {
    out.SetForm(W.Some(form));
    out.decodeStatus, out.encodeStatus := Ok, Ok;
    FillFields(t, FieldsFor(t, form), packed, out);
    out.RebuildTypedViews();
  }

  method FillFields(t: Table, fields: seq<Field>, packed: Word, out: Minst)
    requires out.decodedFields == []
    modifies out
    ensures out.uid == old(out.uid) && out.pc == old(out.pc) && out.nextPc == old(out.nextPc)
    ensures out.Data() == old(out.Data()).(fields := DecodedFields(t, fields, packed))
  {
    for i := 0 to |fields|
      invariant out.Data() == old(out.Data()).(fields := DecodedFields(t, fields[..i], packed))
      invariant out.uid == old(out.uid) && out.pc == old(out.pc) && out.nextPc == old(out.nextPc)
    {
      assert fields[..i + 1][..i] == fields[..i];
      var value := ExtractField(t, fields[i], packed);
      out.SetDecodedField(DecodedField(fields[i].name, fields[i].signedHint > 0, fields[i].bitWidth, value));
    }
    assert fields[..|fields|] == fields;
  }

  method DecodePackedWord(t: Table, packedBits: Word, length: int, out: Minst) returns (status: CodecStatus)
    modifies out
    ensures out.Data() == DecodedWord(t, packedBits, length)
    ensures status == out.decodeStatus
    ensures out.uid == old(out.uid) && out.pc == old(out.pc) && out.nextPc == old(out.nextPc)
  {
    if length != 16 && length != 32 && length != 48 && length != 64 {
      out.ClearDecodedState();
      out.SetRawEncoding(packedBits, 0);
      out.decodeStatus := InvalidLength;
      return out.decodeStatus;
    }
    var packed := And(packedBits, Mask(length));
    var valid, sawFixed := ScanForms(t, length, packed);

    out.ClearDecodedState();
    out.SetRawEncoding(packed, length);
    if |valid| == 0 {
      assert !(exists k :: Winner(t, length, packed, k)) by {
        assert forall k :: Winner(t, length, packed, k) ==> SomePass(t, length, packed);
      }
      out.decodeStatus := if sawFixed then ConstraintViolation else NoMatch;
      return out.decodeStatus;
    }
    if |valid| != 1 {
      out.decodeStatus := AmbiguousMatch;
      return out.decodeStatus;
    }
    ghost var k :| Winner(t, length, packed, k) && t.forms[k] == valid[0];
    WinnerUnique(t, length, packed, k);
    var form := valid[0];
    FillPacket(t, form, packed, length, out);
    return out.decodeStatus;
  }

  // ---------- Encoding ----------

  datatype EncodedWord = EncodedWord(bits: Word, lengthBits: nat, valid: bool, status: CodecStatus)

  predicate FitsField(field: Field, value: i64) {
    if field.bitWidth == 0 then value == 0
    else if field.signedHint > 0 then
      field.bitWidth >= 64 || -Pow2(field.bitWidth - 1) <= value <= Pow2(field.bitWidth - 1) - 1
    else
      value >= 0 && value <= ToNat(Mask(field.bitWidth))
  }

  function EncodeFieldBits(field: Field, value: i64): Word {
    And(FromInt64(value), Mask(field.bitWidth))
  }

  /** One piece of one field written into the word: clear the slot, then insert the value bits. */
  datatype PieceWrite = PieceWrite(piece: Piece, raw: Word)

  function PutPiece(bits: Word, w: PieceWrite): Word {
    var mask := Mask(w.piece.width);
    Or(And(bits, Not(Shl(mask, w.piece.insnLsb))),
       Shl(And(Shr(w.raw, w.piece.valueLsb), mask), w.piece.insnLsb))
  }

  function PutAll(bits: Word, ws: seq<PieceWrite>): Word {
    if ws == [] then bits else PutPiece(PutAll(bits, ws[..|ws| - 1]), ws[|ws| - 1])
  }

  function FieldWrites(t: Table, f: Field, value: i64): (ws: seq<PieceWrite>)
    ensures |ws| == |PiecesFor(t, f)|
    ensures forall k :: 0 <= k < |ws| ==> ws[k] == PieceWrite(PiecesFor(t, f)[k], EncodeFieldBits(f, value))
  {
    var ps := PiecesFor(t, f);
    seq(|ps|, (k: int) requires 0 <= k < |ps| => PieceWrite(ps[k], EncodeFieldBits(f, value)))
  }

  /** One field of the encoding loop: missing, out of range, or more writes. */
  function ThenField(t: Table, before: seq<PieceWrite>, f: Field, values: seq<DecodedField>)
    : (r: W.Result<seq<PieceWrite>, CodecStatus>)
    ensures r.Err? ==> r.error == MissingField || r.error == ValueOutOfRange
  {
    match FindNamed(values, DecodedName, f.name)
    case None => W.Err(MissingField)
    case Some(v) =>
      if !FitsField(f, v.value) then W.Err(ValueOutOfRange) else W.Ok(before + FieldWrites(t, f, v.value))
  }

  /** The first field that cannot be encoded decides the status; otherwise all the writes, in order. */
  function FieldsWrites(t: Table, fs: seq<Field>, values: seq<DecodedField>)
    : (r: W.Result<seq<PieceWrite>, CodecStatus>)
    ensures r.Err? ==> r.error == MissingField || r.error == ValueOutOfRange
  {
    if fs == [] then W.Ok([])
    else
      var before := FieldsWrites(t, fs[..|fs| - 1], values);
      if before.Err? then before else ThenField(t, before.value, fs[|fs| - 1], values)
  }

  predicate ConstraintEncodes(values: seq<DecodedField>, c: Constraint) {
    var v := FindNamed(values, DecodedName, c.fieldName);
    v.Some? && EvaluateConstraint(c.op, v.value.value, c.value)
  }

  /** The status of the first constraint the field values do not meet, Ok when there is none. */
  function ConstraintsStatus(cs: seq<Constraint>, values: seq<DecodedField>): (s: CodecStatus)
    ensures s == Ok <==> forall c :: c in cs ==> ConstraintEncodes(values, c)
  {
    if cs == [] then Ok
    else if ConstraintEncodes(values, cs[0]) then ConstraintsStatus(cs[1..], values)
    else if FindNamed(values, DecodedName, cs[0].fieldName).None? then MissingField
    else ConstraintViolation
  }

  function Encoded(t: Table, d: Decoded): (r: EncodedWord)
    ensures r.valid <==> r.status == Ok
  {
    if d.form.None? || !d.validForm then EncodedWord(Zero(), 0, false, InvalidForm)
    else
      var form := d.form.value;
      match FieldsWrites(t, FieldsFor(t, form), d.fields)
      case Err(e) => EncodedWord(Zero(), 0, false, e)
      case Ok(ws) =>
        var status := ConstraintsStatus(ConstraintsFor(t, form), d.fields);
        if status != Ok then EncodedWord(Zero(), 0, false, status)
        else
          var length := form.lengthBits % 256;
          EncodedWord(And(PutAll(form.pattern, ws), Mask(length)), length, true, Ok)
  }

  /** A list of writes is done front to back. */
  lemma {:induction false} PutAllSplit(bits: Word, a: seq<PieceWrite>, b: seq<PieceWrite>)
    ensures PutAll(bits, a + b) == PutAll(PutAll(bits, a), b)
  {
    if b == [] {
      assert a + b == a;
    } else {
      PutAllSplit(bits, a, b[..|b| - 1]);
      assert (a + b)[..|a + b| - 1] == a + b[..|b| - 1];
    }
  }

  lemma {:induction false} FirstFieldErrorDecides(t: Table, fs: seq<Field>, n: nat, values: seq<DecodedField>)
    requires n <= |fs| && FieldsWrites(t, fs[..n], values).Err?
    ensures FieldsWrites(t, fs, values) == FieldsWrites(t, fs[..n], values)
  {
    if n < |fs| {
      assert fs[..|fs| - 1][..n] == fs[..n];
      FirstFieldErrorDecides(t, fs[..|fs| - 1], n, values);
    } else {
      assert fs[..n] == fs;
    }
  }

  method PutField(t: Table, field: Field, value: i64, before: Word) returns (bits: Word)
    ensures bits == PutAll(before, FieldWrites(t, field, value))
  {
    var raw := EncodeFieldBits(field, value);
    var pieces := PiecesFor(t, field);
    ghost var ws := FieldWrites(t, field, value);
    bits := before;
    for j := 0 to |pieces|
      invariant bits == PutAll(before, ws[..j])
    {
      assert ws[..j + 1][..j] == ws[..j];
      bits := PutPiece(bits, PieceWrite(pieces[j], raw));
    }
    assert ws[..|pieces|] == ws;
  }

  method EncodeConstraints(cs: seq<Constraint>, values: seq<DecodedField>) returns (status: CodecStatus)
    ensures status == ConstraintsStatus(cs, values)
  {
    for i := 0 to |cs|
      invariant ConstraintsStatus(cs, values) == ConstraintsStatus(cs[i..], values)
    {
      assert cs[i..][1..] == cs[i + 1..];
      var field := FindNamed(values, DecodedName, cs[i].fieldName);
      if field.None? {
        return MissingField;
      }
      if !EvaluateConstraint(cs[i].op, field.value.value, cs[i].value) {
        return ConstraintViolation;
      }
    }
    return Ok;
  }

  /** One turn of the encoding loop, on the word built by the writes so far. */
  method EncodeField(t: Table, field: Field, values: seq<DecodedField>, before: Word,
                     ghost start: Word, ghost done: seq<PieceWrite>) returns (r: W.Result<Word, CodecStatus>)
    requires before == PutAll(start, done)
    ensures
      var writes := ThenField(t, done, field, values);
      r == if writes.Err? then W.Err(writes.error) else W.Ok(PutAll(start, writes.value))
  {
    hide PutAll, FieldWrites, FitsField;
    var found := FindNamed(values, DecodedName, field.name);
    if found.None? {
      return W.Err(MissingField);
    }
    if !FitsField(field, found.value.value) {
      return W.Err(ValueOutOfRange);
    }
    PutAllSplit(start, done, FieldWrites(t, field, found.value.value));
    var bits := PutField(t, field, found.value.value, before);
    return W.Ok(bits);
  }

  method EncodeMinst(t: Table, inst: Minst) returns (out: EncodedWord)
    ensures out == Encoded(t, inst.Data())
  {
    hide FindNamed, FitsField, FieldWrites, ConstraintsStatus, PutPiece, ThenField;
    out := EncodedWord(Zero(), 0, false, InvalidForm);
    if inst.form.None? || !inst.validForm {
      return;
    }
    var form, values := inst.form.value, inst.decodedFields;
    var fields := FieldsFor(t, form);
    var bits := form.pattern;
    for i := 0 to |fields|
      invariant FieldsWrites(t, fields[..i], values).Ok?
      invariant bits == PutAll(form.pattern, FieldsWrites(t, fields[..i], values).value)
    {
      assert fields[..i + 1][..i] == fields[..i];
      var r := EncodeField(t, fields[i], values, bits, form.pattern, FieldsWrites(t, fields[..i], values).value);
      if r.Err? {
        FirstFieldErrorDecides(t, fields, i + 1, values);
        return out.(status := r.error);
      }
      bits := r.value;
    }
    assert fields[..|fields|] == fields;

    var status := EncodeConstraints(ConstraintsFor(t, form), values);
    if status != Ok {
      return out.(status := status);
    }
    var length := form.lengthBits % 256;
    return EncodedWord(And(bits, Mask(length)), length, true, Ok);
  }
}
