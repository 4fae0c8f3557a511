/** What the codec promises: the choice of form depends on the table only as a collection,
    and decoding and encoding undo each other. */
module CodecTheorems {
  import opened Words
  import W = Wrappers
  import opened CodecTables
  import opened Codec

  // ---------- The choice of a form ----------

  /** Each outcome of decoding, as a property of the entries that pass. */
  lemma {:induction false} ChoiceMeaning(t: Table, length: int, packed: Word)
    ensures forall form :: Choose(t, length, packed) == Chosen(form) <==>
              exists k :: Winner(t, length, packed, k) && t.forms[k] == form
    ensures Choose(t, length, packed) == Rejected(AmbiguousMatch) <==>
              SomePass(t, length, packed) && forall k :: !Winner(t, length, packed, k)
    ensures Choose(t, length, packed) == Rejected(ConstraintViolation) <==>
              SomeMatch(t, length, packed) && !SomePass(t, length, packed)
    ensures Choose(t, length, packed) == Rejected(NoMatch) <==> !SomeMatch(t, length, packed)
  {
    forall k | Winner(t, length, packed, k)
      ensures Choose(t, length, packed) == Chosen(t.forms[k])
      ensures SomePass(t, length, packed)
    {
      WinnerUnique(t, length, packed, k);
    }
    assert SomePass(t, length, packed) ==> SomeMatch(t, length, packed);
  }

  /** Only the entry's own description and the shared tables decide whether it passes. */
  lemma {:induction false} PassesSameTables(t1: Table, t2: Table, form: Form, length: int, packed: Word)
    requires t1.(forms := t2.forms) == t2
    ensures Passes(t1, form, length, packed) == Passes(t2, form, length, packed)
  {
    assert ConstraintsFor(t1, form) == ConstraintsFor(t2, form) && FieldsFor(t1, form) == FieldsFor(t2, form);
    forall c
      ensures ConstraintHolds(t1, form, c, packed) == ConstraintHolds(t2, form, c, packed)
    {
      var f := FindNamed(FieldsFor(t1, form), FieldName, c.fieldName);
      if f.Some? {
        assert PiecesFor(t1, f.value) == PiecesFor(t2, f.value);
      }
    }
  }

  /** An element met twice is met at a second index. */
  lemma {:induction false} SecondIndex<T>(s: seq<T>, k: nat) returns (j: nat)
    requires k < |s| && multiset(s)[s[k]] >= 2
    ensures j < |s| && j != k && s[j] == s[k]
  {
    assert s == s[..k] + [s[k]] + s[k + 1..];
    assert multiset(s) == multiset(s[..k]) + multiset{s[k]} + multiset(s[k + 1..]);
    if s[k] in s[..k] {
      j :| 0 <= j < k && s[..k][j] == s[k];
    } else {
      assert s[k] in multiset(s[k + 1..]);
      var i :| 0 <= i < |s[k + 1..]| && s[k + 1..][i] == s[k];
      j := k + 1 + i;
    }
  }

  lemma {:induction false} TwoIndicesCountTwo<T>(s: seq<T>, j: nat, k: nat)
    requires j < k < |s| && s[j] == s[k]
    ensures multiset(s)[s[k]] >= 2
  {
    assert s == s[..k] + [s[k]] + s[k + 1..];
    assert s[..k][j] == s[k];
    assert s[k] in multiset(s[..k]);
  }

  lemma {:induction false} WinnerPermutes(t1: Table, t2: Table, length: int, packed: Word, k: nat) returns (k2: nat)
    requires t1.(forms := t2.forms) == t2 && multiset(t1.forms) == multiset(t2.forms)
    requires Winner(t1, length, packed, k)
    ensures Winner(t2, length, packed, k2) && t2.forms[k2] == t1.forms[k]
  {
    var form := t1.forms[k];
    assert form in multiset(t2.forms);
    k2 :| 0 <= k2 < |t2.forms| && t2.forms[k2] == form;
    PassesSameTables(t1, t2, form, length, packed);
    forall j | 0 <= j < |t2.forms| && j != k2 && Passes(t2, t2.forms[j], length, packed)
      ensures t2.forms[j].fixedBits < form.fixedBits
    {
      PassesSameTables(t1, t2, t2.forms[j], length, packed);
      if t2.forms[j] == form {
        TwoIndicesCountTwo(t2.forms, if j < k2 then j else k2, if j < k2 then k2 else j);
        var again := SecondIndex(t1.forms, k);
        assert false;
      } else {
        assert t2.forms[j] in multiset(t1.forms);
        var i :| 0 <= i < |t1.forms| && t1.forms[i] == t2.forms[j];
      }
    }
  }

  lemma {:induction false} MatchAndPassPermute(t1: Table, t2: Table, length: int, packed: Word)
    requires t1.(forms := t2.forms) == t2 && multiset(t1.forms) == multiset(t2.forms)
    ensures SomeMatch(t1, length, packed) ==> SomeMatch(t2, length, packed)
    ensures SomePass(t1, length, packed) ==> SomePass(t2, length, packed)
  {
    if SomeMatch(t1, length, packed) {
      var k :| 0 <= k < |t1.forms| && FormMatches(t1.forms[k], length, packed);
      assert t1.forms[k] in multiset(t2.forms);
    }
    if SomePass(t1, length, packed) {
      var k :| 0 <= k < |t1.forms| && Passes(t1, t1.forms[k], length, packed);
      PassesSameTables(t1, t2, t1.forms[k], length, packed);
      assert t1.forms[k] in multiset(t2.forms);
    }
  }

  /** Reordering the form table changes neither the status nor the form. */
  lemma {:induction false} ChoiceIgnoresTableOrder(t1: Table, t2: Table, length: int, packed: Word)
    requires t1.(forms := t2.forms) == t2 && multiset(t1.forms) == multiset(t2.forms)
    ensures Choose(t1, length, packed) == Choose(t2, length, packed)
  {
    ChoiceMeaning(t1, length, packed);
    ChoiceMeaning(t2, length, packed);
    MatchAndPassPermute(t1, t2, length, packed);
    MatchAndPassPermute(t2, t1, length, packed);
    if exists k :: Winner(t1, length, packed, k) {
      var k :| Winner(t1, length, packed, k);
      var _ := WinnerPermutes(t1, t2, length, packed, k);
    } else if exists k :: Winner(t2, length, packed, k) {
      var k :| Winner(t2, length, packed, k);
      var _ := WinnerPermutes(t2, t1, length, packed, k);
    }
  }

  lemma {:induction false} FieldsIgnoreForms(t1: Table, t2: Table, fs: seq<Field>, packed: Word)
    requires t1.(forms := t2.forms) == t2
    ensures DecodedFields(t1, fs, packed) == DecodedFields(t2, fs, packed)
  {
    if fs != [] {
      FieldsIgnoreForms(t1, t2, fs[..|fs| - 1], packed);
      assert PiecesFor(t1, fs[|fs| - 1]) == PiecesFor(t2, fs[|fs| - 1]);
    }
  }

  /** Reordering the form table changes nothing of a decoded packet: not the status, the form, the fields
      or the operands. */
  lemma {:induction false} DecodeIgnoresTableOrder(t1: Table, t2: Table, packed: Word, length: int)
    requires t1.(forms := t2.forms) == t2 && multiset(t1.forms) == multiset(t2.forms)
    ensures DecodedWord(t1, packed, length) == DecodedWord(t2, packed, length)
  {
    hide Choose, DecodedFields;
    if !ValidLength(length) {
      return;
    }
    var w := And(packed, Mask(length));
    ChoiceIgnoresTableOrder(t1, t2, length, w);
    match Choose(t1, length, w)
    case Chosen(form) =>
      assert FieldsFor(t1, form) == FieldsFor(t2, form);
      FieldsIgnoreForms(t1, t2, FieldsFor(t1, form), w);
    case Rejected(_) =>
  }

  // ---------- Writing pieces, bit by bit ----------

  predicate Covers(p: Piece, i: int) {
    p.insnLsb <= i < p.insnLsb + p.width
  }

  /** The value bit a write puts at instruction bit i. */
  predicate WrittenBit(w: PieceWrite, i: int)
    requires Covers(w.piece, i)
  {
    var b := i - w.piece.insnLsb + w.piece.valueLsb;
    b < 64 && w.raw[b]
  }

  lemma {:induction false} PutPieceBit(bits: Word, w: PieceWrite, i: nat)
    requires i < 64
    ensures PutPiece(bits, w)[i] == if Covers(w.piece, i) then WrittenBit(w, i) else bits[i]
  {
    var mask := Mask(w.piece.width);
    var inserted := And(Shr(w.raw, w.piece.valueLsb), mask);
    assert Shl(mask, w.piece.insnLsb)[i] == Covers(w.piece, i);
    if i >= w.piece.insnLsb {
      assert Shl(inserted, w.piece.insnLsb)[i] == inserted[i - w.piece.insnLsb];
    }
  }

  predicate CoveredBy(ws: seq<PieceWrite>, i: int) {
    exists j :: 0 <= j < |ws| && Covers(ws[j].piece, i)
  }

  /** When all writes to bit i agree on its value, that is the value it gets. */
  lemma {:induction false} PutAllBit(bits: Word, ws: seq<PieceWrite>, i: nat, v: bool)
    requires i < 64
    requires forall j :: 0 <= j < |ws| && Covers(ws[j].piece, i) ==> WrittenBit(ws[j], i) == v
    ensures PutAll(bits, ws)[i] == if CoveredBy(ws, i) then v else bits[i]
  {
    if ws != [] {
      var n := |ws| - 1;
      assert forall j :: 0 <= j < n ==> ws[..n][j] == ws[j];
      PutAllBit(bits, ws[..n], i, v);
      PutPieceBit(PutAll(bits, ws[..n]), ws[n], i);
      CoveredBySnoc(ws, i);
    }
  }

  lemma {:induction false} CoveredBySnoc(ws: seq<PieceWrite>, i: int)
    requires ws != []
    ensures CoveredBy(ws, i) <==> CoveredBy(ws[..|ws| - 1], i) || Covers(ws[|ws| - 1].piece, i)
  {
    var n := |ws| - 1;
    if CoveredBy(ws[..n], i) {
      var j :| 0 <= j < n && Covers(ws[..n][j].piece, i);
      assert Covers(ws[j].piece, i);
    }
    if CoveredBy(ws, i) {
      var j :| 0 <= j < |ws| && Covers(ws[j].piece, i);
      assert j < n ==> Covers(ws[..n][j].piece, i);
    }
  }

  // ---------- The writes of a form ----------

  function AllPieces(t: Table, fs: seq<Field>): seq<Piece> {
    if fs == [] then [] else AllPieces(t, fs[..|fs| - 1]) + PiecesFor(t, fs[|fs| - 1])
  }

  predicate Disjoint(p: Piece, q: Piece) {
    p.insnLsb + p.width <= q.insnLsb || q.insnLsb + q.width <= p.insnLsb || p.width == 0 || q.width == 0
  }

  predicate PairwiseDisjoint(ps: seq<Piece>) {
    forall j, k :: 0 <= j < k < |ps| ==> Disjoint(ps[j], ps[k])
  }

  /** A form whose fields all encode: the last field's writes come after those of the others. */
  lemma {:induction false} LastFieldWrites(t: Table, fs: seq<Field>, values: seq<DecodedField>)
    returns (more: seq<PieceWrite>)
    requires fs != [] && FieldsWrites(t, fs, values).Ok?
    ensures FieldsWrites(t, fs[..|fs| - 1], values).Ok?
    ensures FieldsWrites(t, fs, values).value == FieldsWrites(t, fs[..|fs| - 1], values).value + more
    ensures FindNamed(values, DecodedName, fs[|fs| - 1].name).Some?
    ensures FitsField(fs[|fs| - 1], FindNamed(values, DecodedName, fs[|fs| - 1].name).value.value)
    ensures more == FieldWrites(t, fs[|fs| - 1], FindNamed(values, DecodedName, fs[|fs| - 1].name).value.value)
  {
    more := FieldWrites(t, fs[|fs| - 1], FindNamed(values, DecodedName, fs[|fs| - 1].name).value.value);
  }

  /** The writes follow the pieces of the form one for one. */
  lemma {:induction false} WritesFollowPieces(t: Table, fs: seq<Field>, values: seq<DecodedField>)
    requires FieldsWrites(t, fs, values).Ok?
    ensures
      var ws := FieldsWrites(t, fs, values).value;
      && |ws| == |AllPieces(t, fs)|
      && forall j :: 0 <= j < |ws| ==> ws[j].piece == AllPieces(t, fs)[j]
  {
    if fs != [] {
      var more := LastFieldWrites(t, fs, values);
      WritesFollowPieces(t, fs[..|fs| - 1], values);
    }
  }

  lemma {:induction false} EncodedFieldsFit(t: Table, fs: seq<Field>, values: seq<DecodedField>, f: Field)
    requires FieldsWrites(t, fs, values).Ok? && f in fs
    ensures FindNamed(values, DecodedName, f.name).Some?
    ensures FitsField(f, FindNamed(values, DecodedName, f.name).value.value)
  {
    hide FieldsWrites, FitsField, FindNamed, PiecesFor, FieldWrites;
    var n := |fs| - 1;
    var more := LastFieldWrites(t, fs, values);
    if f != fs[n] {
      assert fs == fs[..n] + [fs[n]];
      EncodedFieldsFit(t, fs[..n], values, f);
    }
  }

  predicate WriteOf(t: Table, w: PieceWrite, f: Field, values: seq<DecodedField>) {
    && w.piece in PiecesFor(t, f)
    && FindNamed(values, DecodedName, f.name).Some?
    && w.raw == EncodeFieldBits(f, FindNamed(values, DecodedName, f.name).value.value)
  }

  /** Every write belongs to a field of the form, with that field's value. */
  lemma {:induction false} WriteHasField(t: Table, fs: seq<Field>, values: seq<DecodedField>, j: nat)
    returns (f: Field)
    requires FieldsWrites(t, fs, values).Ok? && j < |FieldsWrites(t, fs, values).value|
    ensures f in fs && WriteOf(t, FieldsWrites(t, fs, values).value[j], f, values)
  {
    var n := |fs| - 1;
    var before := FieldsWrites(t, fs[..n], values).value;
    var more := LastFieldWrites(t, fs, values);
    if j < |before| {
      f := WriteHasField(t, fs[..n], values, j);
    } else {
      f := fs[n];
    }
  }

  /** Every piece of every field of the form is written. */
  lemma {:induction false} PieceHasWrite(t: Table, fs: seq<Field>, values: seq<DecodedField>, f: Field, p: Piece)
    returns (j: nat)
    requires FieldsWrites(t, fs, values).Ok? && f in fs && p in PiecesFor(t, f)
    ensures j < |FieldsWrites(t, fs, values).value|
    ensures FindNamed(values, DecodedName, f.name).Some?
    ensures
      var value := FindNamed(values, DecodedName, f.name).value.value;
      FieldsWrites(t, fs, values).value[j] == PieceWrite(p, EncodeFieldBits(f, value))
  {
    hide FieldsWrites, FitsField, EncodeFieldBits, FindNamed, PiecesFor, FieldWrites;
    var n := |fs| - 1;
    var more := LastFieldWrites(t, fs, values);
    var before := FieldsWrites(t, fs[..n], values).value;
    if f == fs[n] {
      var k :| 0 <= k < |PiecesFor(t, f)| && PiecesFor(t, f)[k] == p;
      j := |before| + k;
    } else {
      assert fs == fs[..n] + [fs[n]];
      j := PieceHasWrite(t, fs[..n], values, f, p);
    }
  }

  // ---------- Encode, then decode ----------

  predicate DistinctNames(fs: seq<Field>) {
    forall j, k :: 0 <= j < k < |fs| ==> fs[j].name != fs[k].name
  }

  predicate PieceInside(p: Piece, f: Field, form: Form) {
    && p.insnLsb + p.width <= form.lengthBits
    && p.valueLsb + p.width <= f.bitWidth
    && forall i :: Covers(p, i) && 0 <= i < 64 ==> !form.mask[i]
  }

  predicate HasValueBit(ps: seq<Piece>, b: int) {
    exists p :: p in ps && p.valueLsb <= b < p.valueLsb + p.width
  }

  /** The pieces of a field cover all its value bits. */
  predicate Tiled(ps: seq<Piece>, bitWidth: nat) {
    forall b :: 0 <= b < bitWidth ==> HasValueBit(ps, b)
  }

  ghost predicate FormWellFormed(t: Table, form: Form) {
    var fs := FieldsFor(t, form);
    && ValidLength(form.lengthBits)
    && And(form.pattern, form.mask) == form.pattern
    && (forall i :: form.lengthBits <= i < 64 ==> !form.mask[i])
    && DistinctNames(fs)
    && PairwiseDisjoint(AllPieces(t, fs))
    && (forall f, p :: f in fs && p in PiecesFor(t, f) ==> PieceInside(p, f, form))
    && (forall f :: f in fs ==> f.bitWidth <= 64 && Tiled(PiecesFor(t, f), f.bitWidth))
    && (forall c :: c in ConstraintsFor(t, form) ==> exists f :: f in fs && f.name == c.fieldName)
  }

  lemma {:induction false} PieceOfForm(t: Table, fs: seq<Field>, j: nat) returns (f: Field)
    requires j < |AllPieces(t, fs)|
    ensures f in fs && AllPieces(t, fs)[j] in PiecesFor(t, f)
  {
    var n := |fs| - 1;
    if j < |AllPieces(t, fs[..n])| {
      f := PieceOfForm(t, fs[..n], j);
    } else {
      f := fs[n];
    }
  }

  /** The encoded word before the final mask: each piece holds its value bits and nothing else
      moved off the pattern. */
  lemma {:induction false} EncodedBit(t: Table, form: Form, values: seq<DecodedField>, j: nat, i: nat)
    requires FormWellFormed(t, form) && FieldsWrites(t, FieldsFor(t, form), values).Ok?
    requires j < |FieldsWrites(t, FieldsFor(t, form), values).value| && i < 64
    requires Covers(FieldsWrites(t, FieldsFor(t, form), values).value[j].piece, i)
    ensures
      var ws := FieldsWrites(t, FieldsFor(t, form), values).value;
      PutAll(form.pattern, ws)[i] == WrittenBit(ws[j], i)
  {
    var ws := FieldsWrites(t, FieldsFor(t, form), values).value;
    WritesFollowPieces(t, FieldsFor(t, form), values);
    var ps := AllPieces(t, FieldsFor(t, form));
    forall k | 0 <= k < |ws| && k != j
      ensures !Covers(ws[k].piece, i)
    {
      assert Disjoint(ps[if j < k then j else k], ps[if j < k then k else j]);
    }
    PutAllBit(form.pattern, ws, i, WrittenBit(ws[j], i));
  }

  lemma {:induction false} EncodedFixedBit(t: Table, form: Form, values: seq<DecodedField>, i: nat)
    requires FormWellFormed(t, form) && FieldsWrites(t, FieldsFor(t, form), values).Ok?
    requires i < 64 && form.mask[i]
    ensures PutAll(form.pattern, FieldsWrites(t, FieldsFor(t, form), values).value)[i] == form.pattern[i]
  {
    var ws := FieldsWrites(t, FieldsFor(t, form), values).value;
    WritesFollowPieces(t, FieldsFor(t, form), values);
    forall k | 0 <= k < |ws|
      ensures !Covers(ws[k].piece, i)
    {
      var f := PieceOfForm(t, FieldsFor(t, form), k);
      assert PieceInside(ws[k].piece, f, form);
    }
    PutAllBit(form.pattern, ws, i, false);
  }

  /** The encoded word carries the form's fixed bits. */
  lemma {:induction false} EncodedMatches(t: Table, form: Form, d: Decoded)
    requires FormWellFormed(t, form) && d.form == W.Some(form) && Encoded(t, d).valid
    ensures FormMatches(form, form.lengthBits, Encoded(t, d).bits)
  {
    var w := Encoded(t, d).bits;
    forall i | 0 <= i < 64
      ensures And(w, form.mask)[i] == form.pattern[i]
    {
      if form.mask[i] {
        EncodedFixedBit(t, form, d.fields, i);
      } else {
        assert And(form.pattern, form.mask)[i] == form.pattern[i];
      }
    }
    assert And(w, form.mask) == form.pattern;
  }

  /** Gathering the pieces of a field back from the encoded word gives the value bits put in. */
  lemma {:induction false} EncodedRaw(t: Table, form: Form, d: Decoded, f: Field)
    requires FormWellFormed(t, form) && d.form == W.Some(form) && Encoded(t, d).valid
    requires f in FieldsFor(t, form)
    ensures FindNamed(d.fields, DecodedName, f.name).Some?
    ensures FitsField(f, FindNamed(d.fields, DecodedName, f.name).value.value)
    ensures RawBits(PiecesFor(t, f), Encoded(t, d).bits) ==
            EncodeFieldBits(f, FindNamed(d.fields, DecodedName, f.name).value.value)
  {
    EncodedFieldsFit(t, FieldsFor(t, form), d.fields, f);
    var ps, w := PiecesFor(t, f), Encoded(t, d).bits;
    var raw := EncodeFieldBits(f, FindNamed(d.fields, DecodedName, f.name).value.value);
    forall b | 0 <= b < 64
      ensures RawBits(ps, w)[b] == raw[b]
    {
      EncodedRawBit(t, form, d, f, b);
    }
  }

  lemma {:induction false} EncodedRawBit(t: Table, form: Form, d: Decoded, f: Field, b: nat)
    requires FormWellFormed(t, form) && d.form == W.Some(form) && Encoded(t, d).valid
    requires f in FieldsFor(t, form) && FindNamed(d.fields, DecodedName, f.name).Some? && b < 64
    ensures RawBits(PiecesFor(t, f), Encoded(t, d).bits)[b] ==
            EncodeFieldBits(f, FindNamed(d.fields, DecodedName, f.name).value.value)[b]
  {
    var ps, w := PiecesFor(t, f), Encoded(t, d).bits;
    RawBit(ps, w, b);
    forall p | p in ps && p.valueLsb <= b < p.valueLsb + p.width
      ensures ValueHit(p, w, b) == EncodeFieldBits(f, FindNamed(d.fields, DecodedName, f.name).value.value)[b]
    {
      PieceReadsBack(t, form, d, f, p, b);
    }
    if b < f.bitWidth {
      assert HasValueBit(ps, b);
    } else {
      assert forall p :: p in ps ==> PieceInside(p, f, form);
    }
  }

  lemma {:induction false} PieceReadsBack(t: Table, form: Form, d: Decoded, f: Field, p: Piece, b: nat)
    requires FormWellFormed(t, form) && d.form == W.Some(form) && Encoded(t, d).valid
    requires f in FieldsFor(t, form) && FindNamed(d.fields, DecodedName, f.name).Some?
    requires p in PiecesFor(t, f) && p.valueLsb <= b < p.valueLsb + p.width && b < 64
    ensures ValueHit(p, Encoded(t, d).bits, b) ==
            EncodeFieldBits(f, FindNamed(d.fields, DecodedName, f.name).value.value)[b]
  {
    PieceOfFieldInside(t, form, f, p);
    EncodedBits(t, form, d);
    var x := PutAll(form.pattern, FieldsWrites(t, FieldsFor(t, form), d.fields).value);
    HitUnderMask(p, x, form.lengthBits, b);
    PieceWritten(t, form, d.fields, f, p, p.insnLsb + (b - p.valueLsb));
  }

  lemma {:induction false} EncodedBits(t: Table, form: Form, d: Decoded)
    requires ValidLength(form.lengthBits) && d.form == W.Some(form) && Encoded(t, d).valid
    ensures FieldsWrites(t, FieldsFor(t, form), d.fields).Ok?
    ensures ConstraintsStatus(ConstraintsFor(t, form), d.fields) == Ok
    ensures Encoded(t, d).lengthBits == form.lengthBits
    ensures Encoded(t, d).bits ==
            And(PutAll(form.pattern, FieldsWrites(t, FieldsFor(t, form), d.fields).value), Mask(form.lengthBits))
  {
  }

  lemma {:induction false} HitUnderMask(p: Piece, x: Word, length: nat, b: nat)
    requires p.insnLsb + p.width <= length <= 64 && p.valueLsb <= b < p.valueLsb + p.width
    ensures ValueHit(p, And(x, Mask(length)), b) == x[p.insnLsb + (b - p.valueLsb)]
  {
  }

  lemma {:induction false} PieceOfFieldInside(t: Table, form: Form, f: Field, p: Piece)
    requires FormWellFormed(t, form) && f in FieldsFor(t, form) && p in PiecesFor(t, f)
    ensures PieceInside(p, f, form) && form.lengthBits <= 64 && f.bitWidth <= 64
  {
  }

  lemma {:induction false} PieceWritten(t: Table, form: Form, values: seq<DecodedField>, f: Field, p: Piece, i: nat)
    requires FormWellFormed(t, form) && FieldsWrites(t, FieldsFor(t, form), values).Ok?
    requires f in FieldsFor(t, form) && FindNamed(values, DecodedName, f.name).Some? && p in PiecesFor(t, f)
    requires i < 64 && Covers(p, i)
    ensures PutAll(form.pattern, FieldsWrites(t, FieldsFor(t, form), values).value)[i] ==
            WrittenBit(PieceWrite(p, EncodeFieldBits(f, FindNamed(values, DecodedName, f.name).value.value)), i)
  {
    var j := PieceHasWrite(t, FieldsFor(t, form), values, f, p);
    EncodedBit(t, form, values, j, i);
  }

  lemma {:induction false} FittingValueExtracts(f: Field, v: i64)
    requires FitsField(f, v) && f.bitWidth <= 64
    ensures v == if f.signedHint > 0 then SignExtend(EncodeFieldBits(f, v), f.bitWidth)
                 else ToInt64(EncodeFieldBits(f, v))
  {
    MaskNat(f.bitWidth);
    Pow64();
    if f.signedHint > 0 {
      if f.bitWidth > 0 {
        SignExtendOfTruncated(v, f.bitWidth);
      }
    } else {
      assert 0 <= v < Pow2(f.bitWidth);
      UnsignedTruncated(v, f.bitWidth);
    }
  }

  /** Every field read back from the encoded word has the value it was given. */
  lemma {:induction false} EncodedFieldReadsBack(t: Table, form: Form, d: Decoded, f: Field)
    requires FormWellFormed(t, form) && d.form == W.Some(form) && Encoded(t, d).valid
    requires f in FieldsFor(t, form)
    ensures FindNamed(d.fields, DecodedName, f.name).Some?
    ensures ExtractFieldValue(t, f, Encoded(t, d).bits) == FindNamed(d.fields, DecodedName, f.name).value.value
  {
    EncodedRaw(t, form, d, f);
    FittingValueExtracts(f, FindNamed(d.fields, DecodedName, f.name).value.value);
  }

  lemma {:induction false} FindByName(fs: seq<Field>, f: Field)
    requires DistinctNames(fs) && f in fs
    ensures FindNamed(fs, FieldName, f.name) == W.Some(f)
  {
    if fs[0] != f {
      assert f in fs[1..];
      assert fs[0].name != f.name by {
        var k :| 0 <= k < |fs| && fs[k] == f;
      }
      FindByName(fs[1..], f);
    }
  }

  lemma {:induction false} EncodedPasses(t: Table, form: Form, d: Decoded)
    requires FormWellFormed(t, form) && d.form == W.Some(form) && Encoded(t, d).valid
    ensures Passes(t, form, form.lengthBits, Encoded(t, d).bits)
  {
    EncodedMatches(t, form, d);
    forall c | c in ConstraintsFor(t, form)
      ensures ConstraintHolds(t, form, c, Encoded(t, d).bits)
    {
      EncodedConstraint(t, form, d, c);
    }
  }

  lemma {:induction false} EncodedConstraint(t: Table, form: Form, d: Decoded, c: Constraint)
    requires FormWellFormed(t, form) && d.form == W.Some(form) && Encoded(t, d).valid
    requires c in ConstraintsFor(t, form)
    ensures ConstraintHolds(t, form, c, Encoded(t, d).bits)
  {
    var fs := FieldsFor(t, form);
    var f :| f in fs && f.name == c.fieldName;
    FindByName(fs, f);
    EncodedFieldReadsBack(t, form, d, f);
    assert ConstraintEncodes(d.fields, c);
  }

  lemma {:induction false} DecodedFieldsDistinct(t: Table, fs: seq<Field>, packed: Word)
    requires DistinctNames(fs)
    ensures |DecodedFields(t, fs, packed)| == |fs|
    ensures forall k :: 0 <= k < |fs| ==> DecodedFields(t, fs, packed)[k] == DecodedFieldOf(t, fs[k], packed)
  {
    if fs != [] {
      var n := |fs| - 1;
      DecodedFieldsDistinct(t, fs[..n], packed);
      UpsertAt(DecodedFields(t, fs[..n], packed), DecodedFieldOf(t, fs[n], packed), n);
    }
  }

  lemma {:induction false} FindDecodedAt(ds: seq<DecodedField>, k: nat)
    requires k < |ds| && forall i, j :: 0 <= i < j < |ds| ==> ds[i].name != ds[j].name
    ensures FindNamed(ds, DecodedName, ds[k].name) == W.Some(ds[k])
  {
    if k > 0 {
      FindDecodedAt(ds[1..], k - 1);
    }
  }

  lemma {:induction false} DecodedFieldFound(t: Table, fs: seq<Field>, packed: Word, f: Field)
    requires DistinctNames(fs) && f in fs
    ensures FindNamed(DecodedFields(t, fs, packed), DecodedName, f.name) == W.Some(DecodedFieldOf(t, f, packed))
  {
    DecodedFieldsDistinct(t, fs, packed);
    var k :| 0 <= k < |fs| && fs[k] == f;
    FindDecodedAt(DecodedFields(t, fs, packed), k);
  }

  /** Bits kept by the final mask are all within the length, so decoding sees the same word. */
  lemma {:induction false} EncodedWithinLength(t: Table, form: Form, d: Decoded)
    requires ValidLength(form.lengthBits) && d.form == W.Some(form) && Encoded(t, d).valid
    ensures And(Encoded(t, d).bits, Mask(form.lengthBits)) == Encoded(t, d).bits
    ensures Encoded(t, d).lengthBits == form.lengthBits
  {
    assert And(Encoded(t, d).bits, Mask(form.lengthBits)) == Encoded(t, d).bits;
  }

  /** Encode then decode: the form passes on the encoded word, every field reads back, and decoding
      gives back this form and these values exactly when no other passing entry has as many fixed bits. */
  lemma {:induction false} EncodeThenDecode(t: Table, k: nat, d: Decoded)
    requires k < |t.forms| && FormWellFormed(t, t.forms[k])
    requires d.form == W.Some(t.forms[k]) && Encoded(t, d).valid
    ensures
      var form, w := t.forms[k], Encoded(t, d);
      var back := DecodedWord(t, w.bits, w.lengthBits);
      && w.lengthBits == form.lengthBits
      && Passes(t, form, w.lengthBits, w.bits)
      && (forall f :: f in FieldsFor(t, form) ==>
            FindNamed(d.fields, DecodedName, f.name).Some?
            && ExtractFieldValue(t, f, w.bits) == FindNamed(d.fields, DecodedName, f.name).value.value)
      && (back.decodeStatus == Ok && back.form == W.Some(form) <==>
            forall j :: 0 <= j < |t.forms| && j != k && Passes(t, t.forms[j], w.lengthBits, w.bits)
              ==> t.forms[j].fixedBits < form.fixedBits)
      && (back.form == W.Some(form) ==>
            && |back.fields| == |FieldsFor(t, form)|
            && forall f :: f in FieldsFor(t, form) ==>
                 FindNamed(back.fields, DecodedName, f.name) ==
                 W.Some(FindNamed(d.fields, DecodedName, f.name).value
                        .(signedHint := f.signedHint > 0, bitWidth := f.bitWidth)))
  {
    var form, w := t.forms[k], Encoded(t, d);
    var fs := FieldsFor(t, form);
    EncodedWithinLength(t, form, d);
    EncodedPasses(t, form, d);
    forall f | f in fs
      ensures FindNamed(d.fields, DecodedName, f.name).Some?
      ensures ExtractFieldValue(t, f, w.bits) == FindNamed(d.fields, DecodedName, f.name).value.value
      ensures FindNamed(DecodedFields(t, fs, w.bits), DecodedName, f.name) == W.Some(DecodedFieldOf(t, f, w.bits))
    {
      EncodedFieldReadsBack(t, form, d, f);
      DecodedFieldFound(t, fs, w.bits, f);
    }
    DecodedFieldsDistinct(t, fs, w.bits);
    ChoiceMeaning(t, w.lengthBits, w.bits);
    ChosenIsWinner(t, w.lengthBits, w.bits, k);
  }

  /** A passing entry's description is the one chosen exactly when the entry itself wins. */
  lemma {:induction false} ChosenIsWinner(t: Table, length: int, packed: Word, k: nat)
    requires k < |t.forms| && Passes(t, t.forms[k], length, packed)
    ensures Choose(t, length, packed) == Chosen(t.forms[k]) <==> Winner(t, length, packed, k)
  {
    ChoiceMeaning(t, length, packed);
    if Choose(t, length, packed) == Chosen(t.forms[k]) {
      var j :| Winner(t, length, packed, j) && t.forms[j] == t.forms[k];
    }
  }

  // ---------- Decode, then encode ----------

  predicate ValueDisjoint(p: Piece, q: Piece) {
    p.valueLsb + p.width <= q.valueLsb || q.valueLsb + q.width <= p.valueLsb || p.width == 0 || q.width == 0
  }

  /** Inside each field, pieces hold different value bits below the field's width. */
  predicate FieldsReadable(t: Table, form: Form) {
    var fs := FieldsFor(t, form);
    && DistinctNames(fs)
    && (forall f, p :: f in fs && p in PiecesFor(t, f) ==> p.valueLsb + p.width <= f.bitWidth)
    && (forall f :: f in fs ==>
          && f.bitWidth <= 64
          && forall j, k :: 0 <= j < k < |PiecesFor(t, f)| ==> ValueDisjoint(PiecesFor(t, f)[j], PiecesFor(t, f)[k]))
  }

  /** The raw value gathered from a word has nothing above the field's width. */
  lemma {:induction false} RawHighClear(t: Table, form: Form, f: Field, w: Word)
    requires FieldsReadable(t, form) && f in FieldsFor(t, form)
    ensures forall b :: f.bitWidth <= b < 64 ==> !RawBits(PiecesFor(t, f), w)[b]
  {
    forall b | f.bitWidth <= b < 64
      ensures !RawBits(PiecesFor(t, f), w)[b]
    {
      RawBit(PiecesFor(t, f), w, b);
    }
  }

  /** The packet keeps values as signed 64-bit numbers, so an unsigned value of 2^63 or more turns
      negative on decoding. */
  predicate TurnsNegative(t: Table, f: Field, w: Word) {
    f.signedHint <= 0 && RawBits(PiecesFor(t, f), w)[63]
  }

  /** An extracted value fits its field unless it turned negative, and then truncates back to the
      bits it was read from. */
  lemma {:induction false} ExtractedFits(t: Table, form: Form, f: Field, w: Word)
    requires FieldsReadable(t, form) && f in FieldsFor(t, form)
    ensures FitsField(f, ExtractFieldValue(t, f, w)) <==> !TurnsNegative(t, f, w)
    ensures !TurnsNegative(t, f, w) ==>
      EncodeFieldBits(f, ExtractFieldValue(t, f, w)) == RawBits(PiecesFor(t, f), w)
  {
    RawHighClear(t, form, f, w);
    if f.signedHint > 0 {
      SignedFits(f, RawBits(PiecesFor(t, f), w));
    } else {
      UnsignedFits(f, RawBits(PiecesFor(t, f), w));
    }
  }

  lemma {:induction false} SignedFits(f: Field, raw: Word)
    requires f.signedHint > 0 && f.bitWidth <= 64 && forall b :: f.bitWidth <= b < 64 ==> !raw[b]
    ensures -TWO_63 <= SignExtend(raw, f.bitWidth) < TWO_63
    ensures FitsField(f, SignExtend(raw, f.bitWidth))
    ensures EncodeFieldBits(f, SignExtend(raw, f.bitWidth)) == raw
  {
    SignExtendRange(raw, f.bitWidth);
    if f.bitWidth == 0 {
      assert raw == And(FromInt64(0), Mask(0));
    } else {
      TruncatedSignExtend(raw, f.bitWidth);
    }
  }

  lemma {:induction false} UnsignedFits(f: Field, raw: Word)
    requires f.signedHint <= 0 && f.bitWidth <= 64 && forall b :: f.bitWidth <= b < 64 ==> !raw[b]
    ensures -TWO_63 <= ToInt64(raw) < TWO_63
    ensures FitsField(f, ToInt64(raw)) <==> !raw[63]
    ensures !raw[63] ==> EncodeFieldBits(f, ToInt64(raw)) == raw
  {
    CastRange(raw);
    CastToAndBack(raw);
    if !raw[63] {
      var width := if f.bitWidth < 64 then f.bitWidth else 63;
      TruncatedUnsigned(raw, width);
      PowMonotone(width, f.bitWidth);
      MaskNat(f.bitWidth);
      assert And(raw, Mask(f.bitWidth)) == raw;
    }
  }

  /** A piece of a readable field writes back the very bits it was read from. */
  lemma {:induction false} PieceWritesBack(t: Table, form: Form, f: Field, p: Piece, w: Word, i: nat)
    requires FieldsReadable(t, form) && f in FieldsFor(t, form) && p in PiecesFor(t, f)
    requires Covers(p, i) && i < 64
    ensures WrittenBit(PieceWrite(p, RawBits(PiecesFor(t, f), w)), i) == w[i]
  {
    var ps := PiecesFor(t, f);
    var b := i - p.insnLsb + p.valueLsb;
    RawBit(ps, w, b);
    assert w[i] == ValueHit(p, w, b);
    var k :| 0 <= k < |ps| && ps[k] == p;
    forall j | 0 <= j < |ps| && j != k
      ensures !ValueHit(ps[j], w, b)
    {
      assert ValueDisjoint(ps[if j < k then j else k], ps[if j < k then k else j]);
    }
  }

  lemma {:induction false} ReadableFieldEncodes(t: Table, form: Form, w: Word, f: Field, before: seq<PieceWrite>)
    requires FieldsReadable(t, form) && f in FieldsFor(t, form)
    ensures
      var r := ThenField(t, before, f, DecodedFields(t, FieldsFor(t, form), w));
      && (r.Ok? <==> !TurnsNegative(t, f, w)) && (r.Err? ==> r.error == ValueOutOfRange)
  {
    DecodedFieldFound(t, FieldsFor(t, form), w, f);
    ExtractedFits(t, form, f, w);
  }

  lemma {:induction false} ReadableFieldsEncode(t: Table, form: Form, w: Word, n: nat)
    requires FieldsReadable(t, form) && n <= |FieldsFor(t, form)|
    ensures
      var fs := FieldsFor(t, form);
      var r := FieldsWrites(t, fs[..n], DecodedFields(t, fs, w));
      && (r.Ok? <==> forall k :: 0 <= k < n ==> !TurnsNegative(t, fs[k], w))
      && (r.Err? ==> r.error == ValueOutOfRange)
  {
    hide FieldsReadable, TurnsNegative, ThenField, DecodedFields;
    var fs := FieldsFor(t, form);
    if n > 0 {
      ReadableFieldsEncode(t, form, w, n - 1);
      assert fs[..n][..n - 1] == fs[..n - 1];
      var before := FieldsWrites(t, fs[..n - 1], DecodedFields(t, fs, w));
      if before.Ok? {
        ReadableFieldEncodes(t, form, w, fs[n - 1], before.value);
      }
    }
  }

  lemma {:induction false} ReadableConstraintsEncode(t: Table, form: Form, w: Word)
    requires FieldsReadable(t, form) && ConstraintsHold(t, form, w)
    ensures ConstraintsStatus(ConstraintsFor(t, form), DecodedFields(t, FieldsFor(t, form), w)) == Ok
  {
    forall c | c in ConstraintsFor(t, form)
      ensures ConstraintEncodes(DecodedFields(t, FieldsFor(t, form), w), c)
    {
      assert ConstraintHolds(t, form, c, w);
      DecodedFieldFound(t, FieldsFor(t, form), w, FindNamed(FieldsFor(t, form), FieldName, c.fieldName).value);
    }
  }

  predicate CoveredBit(t: Table, form: Form, i: nat)
    requires i < 64
  {
    form.mask[i] || exists p :: p in AllPieces(t, FieldsFor(t, form)) && Covers(p, i)
  }

  /** Every write of a re-encoded word agrees with the word it was decoded from. */
  lemma {:induction false} ReencodedBit(t: Table, form: Form, w: Word, i: nat)
    requires FieldsReadable(t, form) && And(w, form.mask) == form.pattern && i < 64
    requires FieldsWrites(t, FieldsFor(t, form), DecodedFields(t, FieldsFor(t, form), w)).Ok?
    ensures
      var ws := FieldsWrites(t, FieldsFor(t, form), DecodedFields(t, FieldsFor(t, form), w)).value;
      PutAll(form.pattern, ws)[i] == (CoveredBit(t, form, i) && w[i])
  {
    var fs := FieldsFor(t, form);
    var ws := FieldsWrites(t, fs, DecodedFields(t, fs, w)).value;
    forall j | 0 <= j < |ws| && Covers(ws[j].piece, i)
      ensures WrittenBit(ws[j], i) == w[i]
    {
      ReencodedWriteAgrees(t, form, w, j, i);
    }
    PutAllBit(form.pattern, ws, i, w[i]);
    CoveredAlike(t, fs, DecodedFields(t, fs, w), i);
    assert And(w, form.mask)[i] == form.pattern[i];
  }

  lemma {:induction false} ReencodedWriteAgrees(t: Table, form: Form, w: Word, j: nat, i: nat)
    requires FieldsReadable(t, form) && i < 64
    requires FieldsWrites(t, FieldsFor(t, form), DecodedFields(t, FieldsFor(t, form), w)).Ok?
    requires j < |FieldsWrites(t, FieldsFor(t, form), DecodedFields(t, FieldsFor(t, form), w)).value|
    requires Covers(FieldsWrites(t, FieldsFor(t, form), DecodedFields(t, FieldsFor(t, form), w)).value[j].piece, i)
    ensures WrittenBit(FieldsWrites(t, FieldsFor(t, form), DecodedFields(t, FieldsFor(t, form), w)).value[j], i) == w[i]
  {
    var fs := FieldsFor(t, form);
    var values := DecodedFields(t, fs, w);
    var write := FieldsWrites(t, fs, values).value[j];
    var f := WriteHasField(t, fs, values, j);
    DecodedFieldFound(t, fs, w, f);
    EncodedFieldsFit(t, fs, values, f);
    ExtractedFits(t, form, f, w);
    PieceWritesBack(t, form, f, write.piece, w, i);
  }

  /** A bit is written exactly when a piece of the form covers it. */
  lemma {:induction false} CoveredAlike(t: Table, fs: seq<Field>, values: seq<DecodedField>, i: nat)
    requires FieldsWrites(t, fs, values).Ok?
    ensures CoveredBy(FieldsWrites(t, fs, values).value, i) <==> exists p :: p in AllPieces(t, fs) && Covers(p, i)
  {
    var ws, ps := FieldsWrites(t, fs, values).value, AllPieces(t, fs);
    WritesFollowPieces(t, fs, values);
    if CoveredBy(ws, i) {
      var j :| 0 <= j < |ws| && Covers(ws[j].piece, i);
      assert ps[j] in ps;
    }
    if p :| p in ps && Covers(p, i) {
      var j :| 0 <= j < |ps| && ps[j] == p;
      assert Covers(ws[j].piece, i);
    }
  }

  /** Decode then encode. Re-encoding a decoded word succeeds exactly when no unsigned value turned
      negative; it then gives back the word's own bits wherever the form fixes a bit or a field holds
      one, and zero elsewhere, so the word comes back whole exactly when it has no other bit set. */
  lemma {:induction false} DecodeThenEncode(t: Table, packed: Word, length: int)
    requires DecodedWord(t, packed, length).decodeStatus == Ok
    requires FieldsReadable(t, DecodedWord(t, packed, length).form.value)
    ensures
      var d := DecodedWord(t, packed, length);
      var form, again := d.form.value, Encoded(t, d);
      && (again.valid <==> forall f :: f in FieldsFor(t, form) ==> !TurnsNegative(t, f, d.rawBits))
      && (!again.valid ==> again.status == ValueOutOfRange)
      && (again.valid ==>
            && again.lengthBits == length
            && (forall i :: 0 <= i < 64 ==> again.bits[i] == (CoveredBit(t, form, i) && d.rawBits[i]))
            && (again.bits == d.rawBits <==> forall i :: 0 <= i < 64 && d.rawBits[i] ==> CoveredBit(t, form, i)))
  {
    var d := DecodedWord(t, packed, length);
    var form, w := d.form.value, d.rawBits;
    ChoiceMeaning(t, length, w);
    var k :| Winner(t, length, w, k) && t.forms[k] == form;
    ReencodedWord(t, form, d, w);
  }

  lemma {:induction false} ReencodedWord(t: Table, form: Form, d: Decoded, w: Word)
    requires FieldsReadable(t, form) && ValidLength(form.lengthBits)
    requires Passes(t, form, form.lengthBits, w) && And(w, Mask(form.lengthBits)) == w
    requires d.form == W.Some(form) && d.validForm && d.fields == DecodedFields(t, FieldsFor(t, form), w)
    ensures Encoded(t, d).valid <==> forall f :: f in FieldsFor(t, form) ==> !TurnsNegative(t, f, w)
    ensures !Encoded(t, d).valid ==> Encoded(t, d).status == ValueOutOfRange
    ensures Encoded(t, d).valid ==> Encoded(t, d).lengthBits == form.lengthBits
    ensures Encoded(t, d).valid ==>
              forall i :: 0 <= i < 64 ==> Encoded(t, d).bits[i] == (CoveredBit(t, form, i) && w[i])
  {
    var fs := FieldsFor(t, form);
    ReadableFieldsEncode(t, form, w, |fs|);
    assert fs[..|fs|] == fs;
    ReadableConstraintsEncode(t, form, w);
    if Encoded(t, d).valid {
      forall i | 0 <= i < 64
        ensures Encoded(t, d).bits[i] == (CoveredBit(t, form, i) && w[i])
      {
        ReencodedBit(t, form, w, i);
        assert And(w, Mask(form.lengthBits))[i] == w[i];
      }
    }
  }

  /** An input: one 64-bit unsigned field over a word with its top bit set decodes, and does not encode. */
  lemma {:induction false} NegativeValueInput() returns (t: Table, w: Word)
    ensures DecodedWord(t, w, 64).decodeStatus == Ok && FieldsReadable(t, DecodedWord(t, w, 64).form.value)
    ensures Encoded(t, DecodedWord(t, w, 64)).status == ValueOutOfRange
  {
    var field, piece := Field("f", 0, 64, 0, 1), Piece(0, 64, 0);
    var form := Form("", "", "", 64, 0, Zero(), Zero(), 0, 1, 0, 0);
    t := Table([form], [field], [piece], []);
    w := Mask(64);
    assert And(w, Mask(64)) == w && And(w, Zero()) == Zero();
    assert FieldsFor(t, form) == [field] && PiecesFor(t, field) == [piece] && ConstraintsFor(t, form) == [];
    assert Winner(t, 64, w, 0);
    WinnerUnique(t, 64, w, 0);
    RawBit([piece], w, 63);
    assert piece in [piece] && ValueHit(piece, w, 63);
    assert TurnsNegative(t, field, w);
    DecodeThenEncode(t, w, 64);
  }

  // ---------- Split words ----------

  /** The word `DecodeMinst` puts together from two halves. */
  function JoinHalves(lo: Word, hi: Word, length: int): Word {
    if length > 32 then Or(And(lo, Mask(32)), Shl(hi, 32)) else lo
  }

  /** Decoding the two halves of a word is decoding the word. */
  lemma {:induction false} SplitWordDecodes(t: Table, w: Word, length: int)
    requires ValidLength(length)
    ensures DecodedWord(t, JoinHalves(And(w, Mask(32)), Shr(w, 32), length), length) == DecodedWord(t, w, length)
  {
    var joined := JoinHalves(And(w, Mask(32)), Shr(w, 32), length);
    assert And(joined, Mask(length)) == And(w, Mask(length));
  }
}
