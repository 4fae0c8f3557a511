/** What the numbers and orders in a generated table mean, said on the instructions themselves. */
module GeneratorMeaning {
  import opened Words
  import W = Wrappers
  import opened CodecTables
  import opened Codec
  import opened Generator
  import opened GeneratorTheorems

  // ---------- Fixed bits ----------

  /** The last character of a pattern speaks for bit 0. */
  predicate Fixes(p: string, b: int) {
    0 <= b < |p| && p[|p| - 1 - b] != '.'
  }

  /** The bit positions a pattern fixes. */
  function FixedPositions(p: string): set<int> {
    set b | 0 <= b < |p| && Fixes(p, b)
  }

  function OnesFrom(bits: seq<bool>, k: nat): set<int> {
    set b | k <= b < |bits| && bits[b]
  }

  lemma {:induction false} CountIsCardinality(bits: seq<bool>, k: nat)
    requires k <= |bits|
    ensures CountOnes(bits[k..]) == |OnesFrom(bits, k)|
    decreases |bits| - k
  {
    if k < |bits| {
      CountIsCardinality(bits, k + 1);
      assert bits[k..][1..] == bits[k + 1..];
      assert OnesFrom(bits, k) == (if bits[k] then {k} else {}) + OnesFrom(bits, k + 1);
    }
  }

  /** The fixed-bit count of a generated form is the number of positions its pattern fixes. */
  lemma {:induction false} FixedBitsCount(t: Table, form: Form, inst: Instruction)
    requires Describes(t, form, inst)
    ensures form.fixedBits == |FixedPositions(FormPattern(inst))|
  {
    hide FormPattern, FieldsDescribe, CountOnes;
    var p := FormPattern(inst);
    var bits := MaskBits(p);
    CountIsCardinality(bits, 0);
    assert bits[0..] == bits && OnesFrom(bits, 0) == FixedPositions(p);
  }

  lemma {:induction false} SmallerSet(a: set<int>, b: set<int>)
    requires a < b
    ensures |a| < |b|
  {
    assert b == a + (b - a);
    assert |b - a| > 0;
  }

  /** A form that fixes strictly more positions has strictly more fixed bits. */
  lemma {:induction false} MoreFixedBits(t: Table, f: Form, g: Form, a: Instruction, b: Instruction)
    requires Describes(t, f, a) && Describes(t, g, b)
    requires FixedPositions(FormPattern(a)) < FixedPositions(FormPattern(b))
    ensures f.fixedBits < g.fixedBits
  {
    hide Describes;
    FixedBitsCount(t, f, a);
    FixedBitsCount(t, g, b);
    SmallerSet(FixedPositions(FormPattern(a)), FixedPositions(FormPattern(b)));
  }

  /** So of two generated forms that pass the same word, decoding never returns the one whose fixed
      positions are among those of the other. */
  lemma {:induction false} LooserFormLoses(t: Table, insts: seq<Instruction>, j: nat, k: nat, packed: Word, length: int)
    requires |t.forms| == |insts| && forall i :: 0 <= i < |insts| ==> Describes(t, t.forms[i], insts[i])
    requires j < |insts| && k < |insts|
    requires FixedPositions(FormPattern(insts[j])) < FixedPositions(FormPattern(insts[k]))
    requires ValidLength(length) ==> Passes(t, t.forms[j], length, And(packed, Mask(length)))
                                       && Passes(t, t.forms[k], length, And(packed, Mask(length)))
    ensures DecodedWord(t, packed, length).form != W.Some(t.forms[j])
  {
    hide Passes, Describes, DecodedFields, Sources, Destinations, FixedPositions, FormPattern;
    MoreFixedBits(t, t.forms[j], t.forms[k], insts[j], insts[k]);
    if ValidLength(length) {
      var w := And(packed, Mask(length));
      forall i | Winner(t, length, w, i)
        ensures t.forms[i] != t.forms[j]
      {
        assert i == k || t.forms[k].fixedBits < t.forms[i].fixedBits;
      }
    }
  }

  // ---------- Patterns ----------

  /** Stripping drops the spaces and nothing else. */
  lemma {:induction false} StripMeaning(a: string, b: string)
    ensures Strip(a + b) == Strip(a) + Strip(b)
    ensures ' ' !in Strip(a) && Strip(" ") == ""
    ensures ' ' !in a ==> Strip(a) == a
  {
    assert " "[1..] == "";
    if a == [] {
      assert a + b == b;
    } else {
      StripMeaning(a[1..], b);
      assert (a + b)[1..] == a[1..] + b;
      assert a == [a[0]] + a[1..];
    }
  }

  /** An undeclared length is the joined pattern's, part widths added up, and the pattern stays as it is. */
  lemma {:induction false} UndeclaredLength(t: Table, form: Form, inst: Instruction)
    requires Describes(t, form, inst) && inst.lengthBits.None? && DeclaredWidths(inst.parts)
    ensures form.lengthBits == TotalWidth(inst.parts) && FormPattern(inst) == JoinedPattern(inst.parts)
  {
    hide FieldsDescribe, JoinedPattern, CountOnes;
    JoinedLength(inst.parts);
  }

  /** A declared length is the form's, and the number of characters of its pattern. */
  lemma {:induction false} DeclaredLength(t: Table, form: Form, inst: Instruction, n: nat)
    requires Describes(t, form, inst) && inst.lengthBits == W.Some(n)
    ensures form.lengthBits == n
    ensures n > 0 ==> |FormPattern(inst)| == n
    ensures n == 0 ==> FormPattern(inst) == JoinedPattern(inst.parts)
  {
    hide FieldsDescribe, JoinedPattern, CountOnes;
    FittedLength(JoinedPattern(inst.parts), n);
  }

  /** An input: a pattern of four characters. */
  lemma {:induction false} PatternInput()
    ensures ToNat(MaskWord("10..")) == 12 && ToNat(MatchWord("10..")) == 8
    ensures FixedPositions("10..") == {2, 3}
  {
    hide ToNat;
    var p := "10..";
    assert BitChar(p, 0) == '.' && BitChar(p, 1) == '.' && BitChar(p, 2) == '0' && BitChar(p, 3) == '1';
    FourBits(MaskWord(p), false, false, true, true);
    FourBits(MatchWord(p), false, false, false, true);
  }

  lemma {:induction false} FourBits(w: Word, a: bool, b: bool, c: bool, d: bool)
    requires w[0] == a && w[1] == b && w[2] == c && w[3] == d && forall i :: 4 <= i < 64 ==> !w[i]
    ensures ToNat(w) == (if a then 1 else 0) + (if b then 2 else 0) + (if c then 4 else 0) + (if d then 8 else 0)
  {
    ClearHighBound(w[4..], 0);
    assert ToNat(w[4..]) == 0;
    assert w[3..][1..] == w[4..] && w[2..][1..] == w[3..] && w[1..][1..] == w[2..];
    assert ToNat(w[3..]) == if d then 1 else 0;
    assert ToNat(w[2..]) == (if c then 1 else 0) + 2 * ToNat(w[3..]);
    assert ToNat(w[1..]) == (if b then 1 else 0) + 2 * ToNat(w[2..]);
  }

  // ---------- Orders and widths ----------

  /** The constraints of the parts, one part after the other, nothing lost and nothing added. */
  lemma {:induction false} ConstraintsInOrder(a: seq<Part>, part: Part, b: seq<Part>)
    ensures PartsConstraints(a + [part] + b) == PartsConstraints(a) + part.constraints + PartsConstraints(b)
  {
    if b == [] {
      assert a + [part] + b == a + [part];
      assert (a + [part])[..|a|] == a;
    } else {
      var n := |b| - 1;
      ConstraintsInOrder(a, part, b[..n]);
      assert (a + [part] + b)[..|a| + 1 + n] == a + [part] + b[..n];
    }
  }

  predicate NameInFields(fs: seq<SpecField>, name: string) {
    exists f :: f in fs && f.name == name
  }

  predicate NameInParts(parts: seq<Part>, name: string) {
    exists i :: 0 <= i < |parts| && NameInFields(parts[i].fields, name)
  }

  lemma {:induction false} FieldsOrder(m: MergeState, fs: seq<SpecField>, offset: nat)
    requires Keyed(m)
    ensures m.order <= MergeFields(m, fs, offset).order && Keyed(MergeFields(m, fs, offset))
    ensures forall name :: name in MergeFields(m, fs, offset).order <==> name in m.order || NameInFields(fs, name)
  {
    if fs != [] {
      var n := |fs| - 1;
      FieldsOrder(m, fs[..n], offset);
      assert fs == fs[..n] + [fs[n]];
      assert forall name :: NameInFields(fs, name) <==> NameInFields(fs[..n], name) || fs[n].name == name;
      FieldOrder(MergeFields(m, fs[..n], offset), fs[n], offset);
    }
  }

  lemma {:induction false} FieldOrder(m: MergeState, f: SpecField, offset: nat)
    requires Keyed(m)
    ensures m.order <= MergeField(m, f, offset).order && Keyed(MergeField(m, f, offset))
    ensures forall name :: name in MergeField(m, f, offset).order <==> name in m.order || name == f.name
  {
    hide Entry;
  }

  /** One part more only adds its new names at the end. */
  lemma {:induction false} OnePartMore(parts: seq<Part>)
    requires parts != [] && Keyed(MergeParts(parts[..|parts| - 1]))
    ensures
      var before, after := MergeParts(parts[..|parts| - 1]), MergeParts(parts);
      && Keyed(after) && before.order <= after.order
      && forall name :: name in after.order <==>
           name in before.order || NameInFields(parts[|parts| - 1].fields, name)
  {
    hide MergeFields, Keyed, NameInFields;
    var k := |parts| - 1;
    FieldsOrder(MergeParts(parts[..k]), parts[k].fields, Offset(parts, k));
  }

  lemma {:induction false} NamesSplit(parts: seq<Part>, name: string)
    requires parts != []
    ensures NameInParts(parts, name) <==>
            NameInParts(parts[..|parts| - 1], name) || NameInFields(parts[|parts| - 1].fields, name)
  {
    hide NameInFields;
    assert forall i :: 0 <= i < |parts| - 1 ==> parts[..|parts| - 1][i] == parts[i];
  }

  /** The fields of a form are the distinct names of its parts, */
  lemma {:induction false} NamesOfParts(parts: seq<Part>)
    ensures Keyed(MergeParts(parts))
    ensures forall name :: name in MergeParts(parts).order <==> NameInParts(parts, name)
  {
    hide *;
    if parts == [] {
      NothingKeyed();
    } else {
      NamesOfParts(parts[..|parts| - 1]);
      OnePartMore(parts);
      forall name
        ensures name in MergeParts(parts).order <==> NameInParts(parts, name)
      {
        NamesSplit(parts, name);
      }
    }
  }

  /** in the order of their first appearance: the names met so far never move when more parts follow. */
  lemma {:induction false} NamesInFirstOrder(parts: seq<Part>, n: nat)
    requires n <= |parts|
    ensures MergeParts(parts[..n]).order <= MergeParts(parts).order
  {
    hide *;
    if n < |parts| {
      var k := |parts| - 1;
      NamesOfParts(parts[..k]);
      OnePartMore(parts);
      NamesInFirstOrder(parts[..k], n);
      assert parts[..k][..n] == parts[..n];
    } else {
      assert parts[..n] == parts;
    }
  }

  lemma {:induction false} NothingKeyed()
    ensures Keyed(MergeParts([]))
    ensures forall name :: name !in MergeParts([]).order && !NameInParts([], name)
  {
  }

  /** Within the last part, too. */
  lemma {:induction false} NamesInFirstOrderWithin(parts: seq<Part>, part: Part, n: nat)
    requires n <= |part.fields|
    ensures
      var part' := part.(fields := part.fields[..n]);
      MergeParts(parts + [part']).order <= MergeParts(parts + [part]).order
  {
    hide MergeField, Keyed;
    var part' := part.(fields := part.fields[..n]);
    NamesOfParts(parts);
    assert (parts + [part'])[..|parts|] == parts && (parts + [part])[..|parts|] == parts;
    var m, offset := MergeParts(parts), TotalWidth(parts);
    FieldsOrder(m, part.fields[..n], offset);
    FieldsGrow(m, part.fields, n, offset);
  }

  lemma {:induction false} FieldsGrow(m: MergeState, fs: seq<SpecField>, n: nat, offset: nat)
    requires Keyed(m) && n <= |fs|
    ensures MergeFields(m, fs[..n], offset).order <= MergeFields(m, fs, offset).order
  {
    hide MergeField, Keyed;
    if n < |fs| {
      var k := |fs| - 1;
      FieldsGrow(m, fs[..k], n, offset);
      assert fs[..k][..n] == fs[..n];
      FieldsOrder(m, fs[..k], offset);
      FieldOrder(MergeFields(m, fs[..k], offset), fs[k], offset);
    } else {
      assert fs[..n] == fs;
    }
  }

  /** The width of a field is the highest value bit one of its pieces reaches, 0 without pieces. */
  lemma {:induction false} WidthReached(ps: seq<Piece>) returns (p: Piece)
    ensures ps == [] ==> WidthOf(ps) == 0
    ensures ps != [] ==> p in ps && WidthOf(ps) == p.valueLsb + p.width
    ensures forall q :: q in ps ==> q.valueLsb + q.width <= WidthOf(ps)
  {
    p := Piece(0, 0, 0);
    if ps != [] {
      var n := |ps| - 1;
      p := WidthReached(ps[..n]);
      if ps[n].valueLsb + ps[n].width > WidthOf(ps[..n]) || n == 0 {
        p := ps[n];
      }
      assert ps == ps[..n] + [ps[n]];
    }
  }

  /** Sorted pieces ascend by value position, and by instruction position where that is the same. */
  lemma {:induction false} SortAscends(ps: seq<Piece>, j: nat, k: nat)
    requires j < k < |SortPieces(ps)|
    ensures
      var p, q := SortPieces(ps)[j], SortPieces(ps)[k];
      p.valueLsb < q.valueLsb || (p.valueLsb == q.valueLsb && p.insnLsb <= q.insnLsb)
  {
    hide SortPieces;
    SortSorts(ps);
  }

  /** The merged field of one piece of one part: the part's offset is added to its instruction bit. */
  lemma {:induction false} OneFieldMerged(before: Part, name: string, signed: W.Option<bool>, p: Piece)
    ensures
      var part := Part(0, "", [SpecField(name, signed, [p])], []);
      var m := MergeParts([before.(fields := []), part]);
      && m.order == [name]
      && m.fields[name].pieces == [Piece(p.insnLsb + before.widthBits, p.width, p.valueLsb)]
  {
    var part := Part(0, "", [SpecField(name, signed, [p])], []);
    var bare := before.(fields := []);
    var parts := [bare, part];
    assert parts[..1] == [bare] && [bare][..0] == [] && [p] == [p];
    assert part.fields[..0] == [];
    assert TotalWidth([bare]) == before.widthBits;
    assert MergeParts([bare]) == MergeState([], map[]);
    var shifted := ShiftPieces([p], before.widthBits);
    assert [] + shifted == [Piece(p.insnLsb + before.widthBits, p.width, p.valueLsb)];
    assert MergeFields(MergeState([], map[]), [], 0) == MergeState([], map[]);
    assert Offset(parts, 1) == before.widthBits;
    assert MergeFields(MergeState([], map[]), part.fields[..0], before.widthBits) == MergeState([], map[]);
    assert MergeParts(parts) == MergeField(MergeState([], map[]), part.fields[0], before.widthBits);
  }
}
