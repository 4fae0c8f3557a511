/** What constraints, operands, field values and codec statuses mean, in terms of numbers and tables. */
module CodecMeaning {
  import opened Words
  import W = Wrappers
  import opened CodecTables
  import opened Codec
  import opened CodecTheorems
  import opened ByteMemory

  // ---------- Constraints ----------

  /** Which of smaller, equal and larger each operator lets through. */
  predicate Compares(op: ConstraintOp, v: int, bound: int) {
    || (v < bound && op in {Ne, Lt, Le})
    || (v == bound && op in {Eq, Le, Ge})
    || (v > bound && op in {Ne, Gt, Ge})
  }

  /** The field of the form that a constraint speaks of: the first of that name. */
  predicate Names(fs: seq<Field>, name: string, k: nat) {
    k < |fs| && fs[k].name == name && forall j :: 0 <= j < k ==> fs[j].name != name
  }

  lemma {:induction false} NamedField(fs: seq<Field>, name: string, k: nat)
    requires Names(fs, name, k)
    ensures FindNamed(fs, FieldName, name) == W.Some(fs[k])
  {
    if k > 0 {
      assert fs[0].name != name;
      NamedField(fs[1..], name, k - 1);
    }
  }

  lemma {:induction false} NoneNamed(fs: seq<Field>, name: string, k: nat)
    requires FindNamed(fs, FieldName, name).None?
    ensures !Names(fs, name, k)
  {
    if Names(fs, name, k) {
      NamedField(fs, name, k);
      assert false;
    }
  }

  /** A constraint holds of a word exactly when the form has a field of its name whose extracted value
      compares as the operator says. */
  ghost predicate Obeyed(t: Table, form: Form, c: Constraint, w: Word) {
    exists k: nat {:trigger Names(FieldsFor(t, form), c.fieldName, k)} ::
      Names(FieldsFor(t, form), c.fieldName, k)
      && Compares(c.op, ExtractFieldValue(t, FieldsFor(t, form)[k], w), c.value)
  }

  lemma {:induction false} ConstraintMeaning(t: Table, form: Form, c: Constraint, w: Word)
    ensures ConstraintHolds(t, form, c, w) <==> Obeyed(t, form, c, w)
  {
    hide ExtractFieldValue, FindNamed;
    var fs := FieldsFor(t, form);
    if FindNamed(fs, FieldName, c.fieldName).None? {
      forall k: nat
        ensures !Names(fs, c.fieldName, k)
      {
        NoneNamed(fs, c.fieldName, k);
      }
    } else {
      var k := FoundNamed(fs, c.fieldName);
      OnlyName(fs, c.fieldName, k);
    }
  }

  lemma {:induction false} FoundNamed(fs: seq<Field>, name: string) returns (k: nat)
    requires FindNamed(fs, FieldName, name).Some?
    ensures Names(fs, name, k) && FindNamed(fs, FieldName, name).value == fs[k]
  {
    if fs[0].name == name {
      k := 0;
    } else {
      k := FoundNamed(fs[1..], name);
      assert forall j :: 1 <= j <= k ==> fs[j] == fs[1..][j - 1];
      k := k + 1;
    }
  }

  /** With one form in the table, a word of a decodable length whose fixed bits match decodes exactly when
      every constraint of the form is obeyed; otherwise the status says a constraint is violated. */
  lemma {:induction false} DecodeObeysConstraints(t: Table, form: Form, packed: Word, length: int)
    requires t.forms == [form] && form.lengthBits == length && length in {16, 32, 48, 64}
    requires And(And(packed, Mask(length)), form.mask) == form.pattern
    ensures
      var d := DecodedWord(t, packed, length);
      var obeyed := forall c :: c in ConstraintsFor(t, form) ==> Obeyed(t, form, c, And(packed, Mask(length)));
      && (d.decodeStatus == Ok <==> obeyed) && (d.decodeStatus == ConstraintViolation <==> !obeyed)
      && (d.decodeStatus == Ok ==> d.form == W.Some(form))
  {
    hide Obeyed, ConstraintHolds, DecodedFields, Sources, Destinations;
    var w := And(packed, Mask(length));
    forall c
      ensures ConstraintHolds(t, form, c, w) <==> Obeyed(t, form, c, w)
    {
      ConstraintMeaning(t, form, c, w);
    }
    assert FormMatches(t.forms[0], length, w);
    if Passes(t, form, length, w) {
      assert Winner(t, length, w, 0);
      WinnerUnique(t, length, w, 0);
    } else {
      assert forall k :: !Winner(t, length, w, k);
      assert !SomePass(t, length, w);
    }
  }

  /** One constraint, operator by operator. */
  lemma {:induction false} OneConstraintDecodes(t: Table, form: Form, c: Constraint, k: nat, packed: Word, length: int)
    requires t.forms == [form] && form.lengthBits == length && length in {16, 32, 48, 64}
    requires And(And(packed, Mask(length)), form.mask) == form.pattern
    requires ConstraintsFor(t, form) == [c] && Names(FieldsFor(t, form), c.fieldName, k)
    ensures
      var v := ExtractFieldValue(t, FieldsFor(t, form)[k], And(packed, Mask(length)));
      var ok := DecodedWord(t, packed, length).decodeStatus == Ok;
      && (c.op == Eq ==> (ok <==> v == c.value)) && (c.op == Ne ==> (ok <==> v != c.value))
      && (c.op == Lt ==> (ok <==> v < c.value)) && (c.op == Le ==> (ok <==> v <= c.value))
      && (c.op == Gt ==> (ok <==> v > c.value)) && (c.op == Ge ==> (ok <==> v >= c.value))
  {
    hide DecodedWord, ExtractFieldValue;
    DecodeObeysConstraints(t, form, packed, length);
    OnlyName(FieldsFor(t, form), c.fieldName, k);
    assert c in ConstraintsFor(t, form);
  }

  lemma {:induction false} OnlyName(fs: seq<Field>, name: string, k: nat)
    requires Names(fs, name, k)
    ensures forall j: nat :: Names(fs, name, j) ==> j == k
  {
  }

  /** The same of encoding, on the packet's own field value. */
  lemma {:induction false} OneConstraintEncodes(t: Table, d: Decoded, c: Constraint, f: DecodedField)
    requires d.form.Some? && d.validForm && FieldsWrites(t, FieldsFor(t, d.form.value), d.fields).Ok?
    requires ConstraintsFor(t, d.form.value) == [c] && FindNamed(d.fields, DecodedName, c.fieldName) == W.Some(f)
    ensures
      var v, ok := f.value, Encoded(t, d).status == Ok;
      && (c.op == Eq ==> (ok <==> v == c.value)) && (c.op == Ne ==> (ok <==> v != c.value))
      && (c.op == Lt ==> (ok <==> v < c.value)) && (c.op == Le ==> (ok <==> v <= c.value))
      && (c.op == Gt ==> (ok <==> v > c.value)) && (c.op == Ge ==> (ok <==> v >= c.value))
      && (!ok ==> Encoded(t, d).status == ConstraintViolation)
  {
    hide FieldsWrites, PutAll;
    var cs := [c];
    assert cs[1..] == [];
    assert ConstraintsStatus(cs, d.fields) == if ConstraintEncodes(d.fields, c) then Ok else ConstraintViolation;
  }

  /** A 16-bit form with one 4-bit field and one constraint on it. */
  function OneConstraintTable(op: ConstraintOp): Table {
    Table([Form("", "", "", 16, 0, Zero(), Zero(), 0, 1, 0, 1)], [Field("RRA_Type", -1, 4, 0, 1)],
          [Piece(0, 4, 0)], [Constraint("RRA_Type", op, 2)])
  }

  /** The word whose field holds n. */
  lemma {:induction false} NibbleValue(n: nat, packed: Word)
    requires n < 8 && packed == FromNat(n, 64)
    ensures ExtractFieldValue(OneConstraintTable(Eq), Field("RRA_Type", -1, 4, 0, 1), And(packed, Mask(16))) == n
  {
    var t, f, w := OneConstraintTable(Eq), Field("RRA_Type", -1, 4, 0, 1), And(packed, Mask(16));
    assert Pow2(3) == 8;
    HighBitsClear(n, 64, 3);
    var pieces := [Piece(0, 4, 0)];
    assert PiecesFor(t, f) == pieces;
    var raw := RawBits(pieces, w);
    forall b | 0 <= b < 64
      ensures raw[b] == packed[b]
    {
      RawBit(pieces, w, b);
      assert Piece(0, 4, 0) in pieces;
    }
    assert raw == packed;
    Pow64();
    PowMonotone(3, 64);
    ToFromNat(n, 64);
  }

  /** Inputs that tell every operator from the others: what the constraint "RRA_Type op 2" lets through of
      the words 1, 2 and 3. */
  lemma {:induction false} OperatorInputs(op: ConstraintOp, n: nat)
    requires 1 <= n <= 3
    ensures
      var ok := (n == 1 && op in {Ne, Lt, Le}) || (n == 2 && op in {Eq, Le, Ge}) || (n == 3 && op in {Ne, Gt, Ge});
      DecodedWord(OneConstraintTable(op), FromNat(n, 64), 16).decodeStatus ==
        (if ok then Ok else ConstraintViolation)
  {
    hide DecodedWord, ExtractFieldValue, FromNat;
    var t, packed: Word := OneConstraintTable(op), FromNat(n, 64);
    var form, c, f := t.forms[0], Constraint("RRA_Type", op, 2), Field("RRA_Type", -1, 4, 0, 1);
    NibbleValue(n, packed);
    SameValue(OneConstraintTable(Eq), t, f, And(packed, Mask(16)));
    assert And(And(packed, Mask(16)), Zero()) == Zero();
    assert FieldsFor(t, form) == [f] && ConstraintsFor(t, form) == [c];
    assert Names(FieldsFor(t, form), "RRA_Type", 0);
    OneConstraintDecodes(t, form, c, 0, packed, 16);
    DecodeObeysConstraints(t, form, packed, 16);
  }

  lemma {:induction false} SameValue(t1: Table, t2: Table, f: Field, w: Word)
    requires t1.pieces == t2.pieces
    ensures ExtractFieldValue(t1, f, w) == ExtractFieldValue(t2, f, w)
  {
    assert PiecesFor(t1, f) == PiecesFor(t2, f);
  }

  // ---------- The choice and the statuses ----------

  /** Exactly the four lengths are decodable. */
  lemma {:induction false} LengthsExactly(t: Table, packed: Word, length: int)
    ensures DecodedWord(t, packed, length).decodeStatus == InvalidLength <==> length !in {16, 32, 48, 64}
  {
    hide DecodedFields, Sources, Destinations;
    if length in {16, 32, 48, 64} {
      ChoiceMeaning(t, length, And(packed, Mask(length)));
    }
  }

  /** The entry with most fixed bits is chosen, and a tie between two for the most is ambiguous. */
  lemma {:induction false} MostFixedBitsWins(t: Table, length: int, w: Word, k: nat, j: nat)
    requires k < |t.forms| && j < |t.forms| && j != k
    requires Passes(t, t.forms[k], length, w) && Passes(t, t.forms[j], length, w)
    requires forall i :: 0 <= i < |t.forms| && Passes(t, t.forms[i], length, w) ==>
               t.forms[i].fixedBits <= t.forms[k].fixedBits
    ensures t.forms[j].fixedBits == t.forms[k].fixedBits ==> Choose(t, length, w) == Rejected(AmbiguousMatch)
    ensures (forall i :: 0 <= i < |t.forms| && i != k && Passes(t, t.forms[i], length, w) ==>
               t.forms[i].fixedBits != t.forms[k].fixedBits) ==> Choose(t, length, w) == Chosen(t.forms[k])
  {
    hide Passes;
    if t.forms[j].fixedBits == t.forms[k].fixedBits {
      forall i
        ensures !Winner(t, length, w, i)
      {
      }
      assert SomePass(t, length, w);
    } else if forall i :: 0 <= i < |t.forms| && i != k && Passes(t, t.forms[i], length, w) ==>
                t.forms[i].fixedBits != t.forms[k].fixedBits {
      assert Winner(t, length, w, k);
      WinnerUnique(t, length, w, k);
    }
  }

  /** Field k of the form cannot be encoded: it is missing from the packet or its value is out of range. */
  predicate Unencodable(values: seq<DecodedField>, f: Field) {
    match FindNamed(values, DecodedName, f.name)
    case None => true
    case Some(v) =>
      if f.bitWidth == 0 then v.value != 0
      else if f.signedHint > 0 then
        f.bitWidth < 64 && (v.value < -Pow2(f.bitWidth - 1) || v.value >= Pow2(f.bitWidth - 1))
      else v.value < 0 || (f.bitWidth < 64 && v.value >= Pow2(f.bitWidth))
  }

  lemma {:induction false} FitsMeaning(f: Field, v: i64)
    ensures FitsField(f, v) ==
            (if f.bitWidth == 0 then v == 0
             else if f.signedHint > 0 then f.bitWidth >= 64 || -Pow2(f.bitWidth - 1) <= v < Pow2(f.bitWidth - 1)
             else v >= 0 && (f.bitWidth >= 64 || v < Pow2(f.bitWidth)))
  {
    Pow64();
    if f.bitWidth <= 64 {
      MaskNat(f.bitWidth);
    } else {
      MaskNat(64);
      assert Mask(f.bitWidth) == Mask(64);
    }
  }

  /** The fields encode exactly when none of them is unencodable. */
  lemma {:induction false} FieldsEncodeExactly(t: Table, fs: seq<Field>, values: seq<DecodedField>)
    ensures FieldsWrites(t, fs, values).Ok? <==> forall k :: 0 <= k < |fs| ==> !Unencodable(values, fs[k])
  {
    hide FindNamed, FieldWrites, Unencodable, ThenField;
    if fs != [] {
      var n := |fs| - 1;
      var before := FieldsWrites(t, fs[..n], values);
      FieldsEncodeExactly(t, fs[..n], values);
      if before.Ok? {
        ThenFieldMeaning(t, before.value, fs[n], values);
      }
      assert forall k :: 0 <= k < n ==> fs[..n][k] == fs[k];
    }
  }

  /** The first unencodable field decides between a missing field and a value out of range. */
  lemma {:induction false} FirstUnencodableDecides(t: Table, fs: seq<Field>, values: seq<DecodedField>, k: nat)
    requires k < |fs| && Unencodable(values, fs[k]) && forall j :: 0 <= j < k ==> !Unencodable(values, fs[j])
    ensures FieldsWrites(t, fs, values) ==
            W.Err(if FindNamed(values, DecodedName, fs[k].name).None? then MissingField else ValueOutOfRange)
  {
    hide FindNamed, FieldWrites, Unencodable, ThenField;
    var n := |fs| - 1;
    if k < n {
      FirstUnencodableDecides(t, fs[..n], values, k);
    } else {
      FieldsEncodeExactly(t, fs[..n], values);
      ThenFieldMeaning(t, FieldsWrites(t, fs[..n], values).value, fs[n], values);
    }
  }

  lemma {:induction false} ThenFieldMeaning(t: Table, before: seq<PieceWrite>, f: Field, values: seq<DecodedField>)
    ensures
      var r := ThenField(t, before, f, values);
      && (r.Ok? <==> !Unencodable(values, f))
      && (r.Err? ==>
            r.error == if FindNamed(values, DecodedName, f.name).None? then MissingField else ValueOutOfRange)
  {
    hide FieldWrites, FitsField;
    var found := FindNamed(values, DecodedName, f.name);
    if found.Some? {
      FitsMeaning(f, found.value.value);
    }
  }

  /** The statuses of an encoding: no form, the first unencodable field, the first constraint not obeyed. */
  lemma {:induction false} EncodeStatusExactly(t: Table, d: Decoded)
    ensures Encoded(t, d).status == InvalidForm <==> d.form.None? || !d.validForm
    ensures d.form.Some? && d.validForm && FieldsWrites(t, FieldsFor(t, d.form.value), d.fields).Err? ==>
              Encoded(t, d).status == FieldsWrites(t, FieldsFor(t, d.form.value), d.fields).error
    ensures d.form.Some? && d.validForm && FieldsWrites(t, FieldsFor(t, d.form.value), d.fields).Ok? ==>
              Encoded(t, d).status == ConstraintsStatus(ConstraintsFor(t, d.form.value), d.fields)
  {
    hide FieldsWrites, PutAll;
    if d.form.Some? {
      StatusRange(ConstraintsFor(t, d.form.value), d.fields);
    }
  }

  lemma {:induction false} StatusRange(cs: seq<Constraint>, values: seq<DecodedField>)
    ensures ConstraintsStatus(cs, values) in {Ok, MissingField, ConstraintViolation}
  {
    if cs != [] {
      StatusRange(cs[1..], values);
    }
  }

  /** The first constraint that is not obeyed by the packet's values decides: its field is missing, or its
      comparison fails. */
  lemma {:induction false} FirstConstraintDecides(cs: seq<Constraint>, values: seq<DecodedField>, k: nat)
    requires k < |cs|
    requires forall j :: 0 <= j < k ==>
      (var f := FindNamed(values, DecodedName, cs[j].fieldName);
       f.Some? && Compares(cs[j].op, f.value.value, cs[j].value))
    ensures
      var f := FindNamed(values, DecodedName, cs[k].fieldName);
      && (f.None? ==> ConstraintsStatus(cs, values) == MissingField)
      && (f.Some? && !Compares(cs[k].op, f.value.value, cs[k].value) ==>
            ConstraintsStatus(cs, values) == ConstraintViolation)
  {
    hide FindNamed;
    if k > 0 {
      assert ConstraintEncodes(values, cs[0]);
      FirstConstraintDecides(cs[1..], values, k - 1);
    }
  }

  /** The packet after a decode: the word cut to its length, and nothing else when no form is chosen. */
  lemma {:induction false} RejectedPacket(t: Table, packed: Word, length: int)
    requires length in {16, 32, 48, 64}
    ensures
      var d := DecodedWord(t, packed, length);
      && d.rawBits == And(packed, Mask(length)) && d.lengthBits == length && d.codeBytes == length / 8
      && d.validForm == d.form.Some? && (d.form.Some? <==> d.decodeStatus == Ok)
      && d.encodeStatus == (if d.decodeStatus == Ok then Ok else InvalidForm)
      && (d.form.None? ==> d.fields == [] && d.srcs == [] && d.dsts == [])
  {
    hide DecodedFields, Sources, Destinations;
    ChoiceMeaning(t, length, And(packed, Mask(length)));
  }

  /** When one is, it has one field for each of the form's, in order, with its name, signedness, width and
      extracted value, and its operands are those of the fields. */
  lemma {:induction false} DecodedPacket(t: Table, packed: Word, length: int, k: nat)
    requires DecodedWord(t, packed, length).decodeStatus == Ok
    requires DistinctNames(FieldsFor(t, DecodedWord(t, packed, length).form.value))
    requires k < |FieldsFor(t, DecodedWord(t, packed, length).form.value)|
    ensures
      var d := DecodedWord(t, packed, length);
      var f := FieldsFor(t, d.form.value)[k];
      && |d.fields| == |FieldsFor(t, d.form.value)|
      && d.fields[k] == DecodedField(f.name, f.signedHint > 0, f.bitWidth, ExtractFieldValue(t, f, d.rawBits))
      && d.srcs == Sources(d.fields) && d.dsts == Destinations(d.fields)
  {
    hide ExtractFieldValue, Sources, Destinations;
    var d := DecodedWord(t, packed, length);
    DecodedFieldsDistinct(t, FieldsFor(t, d.form.value), d.rawBits);
  }

  /** The shape of an encoding: bits and a length only with status Ok. */
  lemma {:induction false} EncodedShape(t: Table, d: Decoded)
    ensures
      var e := Encoded(t, d);
      if e.status == Ok then e.valid && d.form.Some? && e.lengthBits == d.form.value.lengthBits % 256
      else !e.valid && e.bits == Zero() && e.lengthBits == 0
  {
    hide FieldsWrites, PutAll;
  }

  // ---------- Values as numbers ----------

  function MaskedBits(s: seq<bool>, width: nat): (r: seq<bool>)
    ensures |r| == |s|
  {
    seq(|s|, (i: int) requires 0 <= i < |s| => i < width && s[i])
  }

  /** Keeping the low bits is a remainder. */
  lemma {:induction false} MaskedNat(n: nat, len: nat, width: nat)
    requires width <= len
    ensures ToNat(MaskedBits(FromNat(n, len), width)) == n % Pow2(width)
  {
    var s := FromNat(n, len);
    var r := MaskedBits(s, width);
    if width == 0 {
      ClearHighBound(r, 0);
      assert n % 1 == 0;
    } else {
      MaskedNat(n / 2, len - 1, width - 1);
      assert s[1..] == FromNat(n / 2, len - 1);
      assert r[1..] == MaskedBits(s[1..], width - 1);
      HalfMod(n, Pow2(width - 1));
    }
  }

  lemma {:induction false} HalfMod(n: nat, p: nat)
    requires p >= 1
    ensures n % (2 * p) == n % 2 + 2 * (n / 2 % p)
  {
    var q, low := n / 2 / p, n / 2 % p;
    assert n / 2 == q * p + low;
    assert q * (2 * p) == 2 * (q * p);
    ModOf(n, q, 2 * p, 2 * low + n % 2);
  }

  lemma {:induction false} ModOfMod(v: int, high: nat, p: nat)
    requires high >= 1 && p >= 1
    ensures v % (high * p) % p == v % p
  {
    var m := high * p;
    MulGrows(high, p);
    var n := v % m;
    var a, c, r := v / m, n / p, n % p;
    assert v == a * m + n && n == c * p + r;
    MulAssociates(a, high, p);
    MulAdds(a * high, c, p);
    ModOf(v, a * high + c, p, r);
  }

  lemma {:induction false} MulAdds(a: int, b: int, c: int)
    ensures a * c + b * c == (a + b) * c
  {
  }

  /** The low bits of a signed value, too, whatever its sign. */
  lemma {:induction false} CastLow(v: i64, width: nat)
    requires width <= 64
    ensures ToNat(And(FromInt64(v), Mask(width))) == v % Pow2(width)
  {
    var n := v % TWO_64;
    Pow64();
    assert And(FromInt64(v), Mask(width)) == MaskedBits(FromNat(n, 64), width);
    MaskedNat(n, 64, width);
    PowSplit(64 - width, width);
    ModOfMod(v, Pow2(64 - width), Pow2(width));
  }

  lemma {:induction false} MulAssociates(a: int, b: int, c: int)
    ensures a * (b * c) == (a * b) * c
  {
  }

  /** The unsigned reading of a field is its value modulo two to the power of its width. */
  lemma {:induction false} UnsignedIsModulo(f: DecodedField)
    ensures UnsignedValue(f) == f.value % Pow2(if f.bitWidth < 64 then f.bitWidth else 64)
  {
    if f.bitWidth < 64 {
      CastLow(f.value, f.bitWidth);
    } else {
      CastLow(f.value, 64);
      assert Mask(f.bitWidth) == Mask(64);
    }
  }

  /** An extracted value agrees with the gathered bits modulo two to the power of the width, and lies in the
      range its sign hint says. */
  lemma {:induction false} ExtractedMeaning(t: Table, f: Field, w: Word)
    requires 1 <= f.bitWidth <= 63 && forall b :: f.bitWidth <= b < 64 ==> !RawBits(PiecesFor(t, f), w)[b]
    ensures
      var v, p := ExtractFieldValue(t, f, w), Pow2(f.bitWidth);
      && v % p == ToNat(RawBits(PiecesFor(t, f), w))
      && (f.signedHint > 0 ==> -Pow2(f.bitWidth - 1) <= v < Pow2(f.bitWidth - 1))
      && (f.signedHint <= 0 ==> 0 <= v < p)
  {
    var raw, v := RawBits(PiecesFor(t, f), w), ExtractFieldValue(t, f, w);
    if f.signedHint > 0 {
      TruncatedSignExtend(raw, f.bitWidth);
    } else {
      TruncatedUnsigned(raw, f.bitWidth);
    }
    CastLow(v, f.bitWidth);
  }

  // ---------- Operands ----------

  lemma {:induction false} OperandsSplit(a: seq<DecodedField>, b: seq<DecodedField>)
    ensures Sources(a + b) == Sources(a) + Sources(b) && Destinations(a + b) == Destinations(a) + Destinations(b)
  {
    hide OperandOf, IsSourceField, IsDestinationField;
    if b == [] {
      assert a + b == a;
    } else {
      OperandsSplit(a, b[..|b| - 1]);
      assert (a + b)[..|a + b| - 1] == a + b[..|b| - 1];
    }
  }

  /** One field gives one operand, of the side its name says, with its unsigned value, width and name. */
  lemma {:induction false} OneOperand(f: DecodedField)
    ensures
      var operand := OperandOf(f);
      var source := StartsWith(f.name, "Src") || StartsWith(f.name, "RegSrc") || f.name in {"rs1", "rs2", "rs3"};
      var destination := StartsWith(f.name, "RegDst") || StartsWith(f.name, "Dst") || f.name == "rd";
      && operand.value == f.value % Pow2(if f.bitWidth < 64 then f.bitWidth else 64)
      && operand.encodedBits == f.bitWidth && operand.fieldName == f.name
      && Sources([f]) == (if source then [operand] else [])
      && Destinations([f]) == (if destination && !source then [operand] else [])
  {
    UnsignedIsModulo(f);
    hide UnsignedValue, StartsWith;
    var one := [f];
    assert one[..0] == [];
  }

  /** An input: the operands of a packet come in field order, and immediates are none. */
  lemma {:induction false} OperandInput()
    ensures
      var fields := [DecodedField("RegDst", false, 5, 3), DecodedField("SrcL", false, 5, 7),
                     DecodedField("simm12", true, 12, -4), DecodedField("SrcR", false, 5, 9)];
      && Sources(fields) == [Operand(7, 5, "SrcL"), Operand(9, 5, "SrcR")]
      && Destinations(fields) == [Operand(3, 5, "RegDst")]
  {
    hide Sources, Destinations, UnsignedValue, StartsWith;
    var a, b := DecodedField("RegDst", false, 5, 3), DecodedField("SrcL", false, 5, 7);
    var c, d := DecodedField("simm12", true, 12, -4), DecodedField("SrcR", false, 5, 9);
    InputNames();
    assert Pow2(5) == 32;
    OneOperand(a);
    OneOperand(b);
    OneOperand(c);
    OneOperand(d);
    OperandsSplit([a], [b]);
    OperandsSplit([a] + [b], [c]);
    OperandsSplit([a] + [b] + [c], [d]);
    assert [a] + [b] + [c] + [d] == [a, b, c, d];
  }

  lemma {:induction false} InputNames()
    ensures StartsWith("RegDst", "RegDst") && StartsWith("SrcL", "Src") && StartsWith("SrcR", "Src")
    ensures !StartsWith("RegDst", "Src") && !StartsWith("RegDst", "RegSrc")
    ensures !StartsWith("simm12", "Src") && !StartsWith("simm12", "RegSrc")
    ensures !StartsWith("simm12", "RegDst") && !StartsWith("simm12", "Dst")
  {
    assert "RegDst"[0] == 'R' && "simm12"[0] == 's' && "RegDst"[3] == 'D';
    assert "RegDst"[..3][0] == 'R' && "RegDst"[..6][3] == 'D';
    assert "simm12"[..3][0] == 's' && "simm12"[..6][0] == 's';
  }
}
