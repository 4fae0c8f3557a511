/** What the generator keeps: the meaning of part patterns and part pieces, and, for well-formed
    instructions, everything the codec's round trips ask of a form. */
module GeneratorTheorems {
  import opened Words
  import W = Wrappers
  import opened CodecTables
  import opened Codec
  import opened CodecTheorems
  import opened Generator

  // ---------- Patterns ----------

  predicate CharAgrees(p: string, w: Word, offset: nat, b: nat)
    requires offset + |p| <= 64 && b < |p|
  {
    BitChar(p, b) == '.' || w[offset + b] == (BitChar(p, b) == '1')
  }

  /** The bits of w from `offset` up agree with pattern p, character by character. */
  predicate Agrees(p: string, w: Word, offset: nat)
    requires offset + |p| <= 64
  {
    forall b :: 0 <= b < |p| ==> CharAgrees(p, w, offset, b)
  }

  function PartSlice(w: Word, offset: nat, width: nat): Word {
    And(Shr(w, offset), Mask(width))
  }

  /** A part's own mask and match accept its own slice of the word. */
  predicate PartMatches(part: Part, slice: Word) {
    And(slice, MaskWord(Strip(part.pattern))) == MatchWord(Strip(part.pattern))
  }

  predicate DeclaredWidths(parts: seq<Part>) {
    forall i :: 0 <= i < |parts| ==> |Strip(parts[i].pattern)| == parts[i].widthBits
  }

  lemma {:induction false} MaskMatchMeansAgrees(p: string, w: Word)
    requires |p| <= 64
    ensures And(w, MaskWord(p)) == MatchWord(p) <==> Agrees(p, w, 0)
  {
    if And(w, MaskWord(p)) == MatchWord(p) {
      forall b | 0 <= b < |p|
        ensures CharAgrees(p, w, 0, b)
      {
        assert And(w, MaskWord(p))[b] == MatchWord(p)[b];
      }
    }
    if Agrees(p, w, 0) {
      forall b | 0 <= b < 64
        ensures And(w, MaskWord(p))[b] == MatchWord(p)[b]
      {
        assert b < |p| ==> CharAgrees(p, w, 0, b);
      }
    }
  }

  lemma {:induction false} JoinedLength(parts: seq<Part>)
    requires DeclaredWidths(parts)
    ensures |JoinedPattern(parts)| == TotalWidth(parts)
  {
    if parts != [] {
      JoinedLength(parts[..|parts| - 1]);
    }
  }

  lemma {:induction false} OffsetsFit(parts: seq<Part>, i: nat)
    requires i < |parts|
    ensures Offset(parts, i) + parts[i].widthBits <= TotalWidth(parts)
  {
    var n := |parts| - 1;
    if i < n {
      OffsetsFit(parts[..n], i);
      assert parts[..n][..i] == parts[..i];
    }
  }

  /** The character for bit b of part i sits at that part's offset in the joined pattern. */
  lemma {:induction false} JoinedChar(parts: seq<Part>, i: nat, b: nat)
    requires DeclaredWidths(parts) && i < |parts| && b < parts[i].widthBits
    ensures Offset(parts, i) + b < |JoinedPattern(parts)|
    ensures BitChar(JoinedPattern(parts), Offset(parts, i) + b) == BitChar(Strip(parts[i].pattern), b)
  {
    hide Strip;
    var n := |parts| - 1;
    JoinedLength(parts);
    JoinedLength(parts[..n]);
    OffsetsFit(parts, i);
    if i < n {
      JoinedChar(parts[..n], i, b);
      assert parts[..n][..i] == parts[..i];
    }
  }

  /** Every bit of the joined pattern belongs to a part. */
  lemma {:induction false} BitHasPart(parts: seq<Part>, b: nat) returns (i: nat)
    requires b < TotalWidth(parts)
    ensures i < |parts| && Offset(parts, i) <= b < Offset(parts, i) + parts[i].widthBits
  {
    var n := |parts| - 1;
    if b < TotalWidth(parts[..n]) {
      i := BitHasPart(parts[..n], b);
      assert parts[..n][..i] == parts[..i];
    } else {
      i := n;
    }
  }

  /** Fitting keeps the characters of the low bits and adds only dots above. */
  lemma {:induction false} FittedChar(p: string, length: nat, b: nat)
    requires b < |FitPattern(p, length)|
    ensures BitChar(FitPattern(p, length), b) == if b < |p| then BitChar(p, b) else '.'
  {
  }

  lemma {:induction false} FittedLength(p: string, length: nat)
    ensures |FitPattern(p, length)| == if length == 0 then |p| else length
  {
  }

  lemma {:induction false} SliceAgrees(part: Part, w: Word, offset: nat)
    requires |Strip(part.pattern)| == part.widthBits && offset + part.widthBits <= 64
    ensures PartMatches(part, PartSlice(w, offset, part.widthBits)) <==> Agrees(Strip(part.pattern), w, offset)
  {
    var p, slice := Strip(part.pattern), PartSlice(w, offset, part.widthBits);
    MaskMatchMeansAgrees(p, slice);
    forall b | 0 <= b < |p|
      ensures CharAgrees(p, slice, 0, b) == CharAgrees(p, w, offset, b)
    {
      assert slice[b] == w[offset + b];
    }
  }

  lemma {:induction false} JoinedToPart(parts: seq<Part>, w: Word, i: nat)
    requires DeclaredWidths(parts) && |JoinedPattern(parts)| <= 64 && i < |parts|
    requires Offset(parts, i) + parts[i].widthBits <= 64
    requires Agrees(JoinedPattern(parts), w, 0)
    ensures Agrees(Strip(parts[i].pattern), w, Offset(parts, i))
  {
    forall b | 0 <= b < parts[i].widthBits
      ensures CharAgrees(Strip(parts[i].pattern), w, Offset(parts, i), b)
    {
      JoinedChar(parts, i, b);
      assert CharAgrees(JoinedPattern(parts), w, 0, Offset(parts, i) + b);
    }
  }

  lemma {:induction false} PartsToJoined(parts: seq<Part>, w: Word)
    requires DeclaredWidths(parts) && |JoinedPattern(parts)| == TotalWidth(parts) <= 64
    requires forall i :: 0 <= i < |parts| ==> Offset(parts, i) + parts[i].widthBits <= 64
    requires forall i :: 0 <= i < |parts| ==> Agrees(Strip(parts[i].pattern), w, Offset(parts, i))
    ensures Agrees(JoinedPattern(parts), w, 0)
  {
    forall b | 0 <= b < TotalWidth(parts)
      ensures CharAgrees(JoinedPattern(parts), w, 0, b)
    {
      var i := BitHasPart(parts, b);
      JoinedChar(parts, i, b - Offset(parts, i));
      assert CharAgrees(Strip(parts[i].pattern), w, Offset(parts, i), b - Offset(parts, i));
    }
  }

  /** The characters a declared length cuts off fix no bit. */
  predicate NothingFixedDropped(inst: Instruction) {
    var p := JoinedPattern(inst.parts);
    LengthBits(inst) == 0 || forall b :: LengthBits(inst) <= b < |p| ==> BitChar(p, b) == '.'
  }

  predicate FormAccepts(inst: Instruction, w: Word) {
    And(w, MaskWord(FormPattern(inst))) == MatchWord(FormPattern(inst))
  }

  predicate PartsAccept(inst: Instruction, w: Word) {
    forall i :: 0 <= i < |inst.parts| ==>
      PartMatches(inst.parts[i], PartSlice(w, Offset(inst.parts, i), inst.parts[i].widthBits))
  }

  predicate WithinWord(inst: Instruction) {
    DeclaredWidths(inst.parts) && TotalWidth(inst.parts) <= 64 && LengthBits(inst) <= 64
  }

  lemma {:induction false} FittedAgrees(p: string, length: nat, w: Word)
    requires |p| <= 64 && length <= 64
    ensures |FitPattern(p, length)| <= 64
    ensures Agrees(FitPattern(p, length), w, 0) <==>
            forall b :: 0 <= b < |p| && (length == 0 || b < length) ==> CharAgrees(p, w, 0, b)
  {
    var q := FitPattern(p, length);
    forall b | 0 <= b < |q|
      ensures CharAgrees(q, w, 0, b) <==> b >= |p| || CharAgrees(p, w, 0, b)
    {
      FittedChar(p, length, b);
    }
    if Agrees(q, w, 0) {
      assert forall b :: 0 <= b < |p| && (length == 0 || b < length) ==> CharAgrees(q, w, 0, b);
    }
  }

  lemma {:induction false} PartsAcceptMeansAgrees(inst: Instruction, w: Word)
    requires WithinWord(inst)
    ensures |JoinedPattern(inst.parts)| == TotalWidth(inst.parts)
    ensures PartsAccept(inst, w) <==> Agrees(JoinedPattern(inst.parts), w, 0)
  {
    var parts, p := inst.parts, JoinedPattern(inst.parts);
    JoinedLength(parts);
    forall i | 0 <= i < |parts|
      ensures Offset(parts, i) + parts[i].widthBits <= 64
      ensures PartMatches(parts[i], PartSlice(w, Offset(parts, i), parts[i].widthBits)) <==>
              Agrees(Strip(parts[i].pattern), w, Offset(parts, i))
    {
      OffsetsFit(parts, i);
      SliceAgrees(parts[i], w, Offset(parts, i));
    }
    if Agrees(p, w, 0) {
      forall i | 0 <= i < |parts|
        ensures Agrees(Strip(parts[i].pattern), w, Offset(parts, i))
      {
        JoinedToPart(parts, w, i);
      }
    }
    if forall i :: 0 <= i < |parts| ==> Agrees(Strip(parts[i].pattern), w, Offset(parts, i)) {
      PartsToJoined(parts, w);
    }
  }

  /** When the declared length cuts off no fixed bit, a word satisfies the generated mask and match
      exactly when every part's slice of it satisfies that part's own pattern. */
  lemma {:induction false} MaskMatchIsPartwise(inst: Instruction, w: Word)
    requires WithinWord(inst) && NothingFixedDropped(inst)
    ensures FormAccepts(inst, w) <==> PartsAccept(inst, w)
  {
    var p := JoinedPattern(inst.parts);
    PartsAcceptMeansAgrees(inst, w);
    FittedAgrees(p, LengthBits(inst), w);
    MaskMatchMeansAgrees(FormPattern(inst), w);
    assert forall b :: LengthBits(inst) <= b < |p| && LengthBits(inst) != 0 ==> CharAgrees(p, w, 0, b);
  }

  /** When it does cut one off, some word passes the form although a part rejects its slice. */
  lemma {:induction false} DroppedBitAcceptsMore(inst: Instruction) returns (w: Word)
    requires WithinWord(inst) && !NothingFixedDropped(inst)
    ensures FormAccepts(inst, w) && !PartsAccept(inst, w)
  {
    var p, q := JoinedPattern(inst.parts), FormPattern(inst);
    JoinedLength(inst.parts);
    var b :| LengthBits(inst) <= b < |p| && BitChar(p, b) != '.';
    w := MatchWord(q)[b := BitChar(p, b) != '1'];
    PartsAcceptMeansAgrees(inst, w);
    assert !CharAgrees(p, w, 0, b);
    if |q| > 0 {
      FittedChar(p, LengthBits(inst), 0);
    }
    assert And(w, MaskWord(q)) == MatchWord(q);
  }

  /** The exact condition: the generated mask and match mean the part patterns, for every word, if and
      only if the declared length cuts off no fixed bit. */
  lemma {:induction false} MaskMatchPartwiseExactly(inst: Instruction)
    requires WithinWord(inst)
    ensures (forall w: Word :: FormAccepts(inst, w) == PartsAccept(inst, w)) <==> NothingFixedDropped(inst)
  {
    if NothingFixedDropped(inst) {
      forall w: Word
        ensures FormAccepts(inst, w) == PartsAccept(inst, w)
      {
        MaskMatchIsPartwise(inst, w);
      }
    } else {
      var w := DroppedBitAcceptsMore(inst);
    }
  }

  /** An input: a two-bit part that fixes its high bit, declared one bit long. */
  lemma {:induction false} DroppedBitInput() returns (inst: Instruction, w: Word)
    ensures WithinWord(inst) && !NothingFixedDropped(inst)
    ensures FormAccepts(inst, w) && !PartsAccept(inst, w)
  {
    var part := Part(2, "1.", [], []);
    inst := Instruction("", "", "", [part], W.Some(1));
    assert Strip(".") == "." && Strip("1.") == "1.";
    assert inst.parts[..0] == [] && TotalWidth(inst.parts) == 2;
    assert JoinedPattern(inst.parts) == "1.";
    assert BitChar("1.", 1) == '1';
    w := DroppedBitAcceptsMore(inst);
  }

  // ---------- Merged pieces ----------

  /** Piece q is piece p of field f of part i, moved to that part's offset. */
  predicate FromPart(parts: seq<Part>, name: string, q: Piece, i: int, f: SpecField, p: Piece)
    requires 0 <= i < |parts|
  {
    f in parts[i].fields && f.name == name && p in f.pieces && q == ShiftPiece(p, Offset(parts, i))
  }

  predicate FromField(name: string, q: Piece, offset: nat, f: SpecField, p: Piece) {
    f.name == name && p in f.pieces && q == ShiftPiece(p, offset)
  }

  lemma {:induction false} MergedFieldPieces(m: MergeState, fs: seq<SpecField>, offset: nat, name: string, q: Piece)
    ensures q in Entry(MergeFields(m, fs, offset), name).pieces <==>
            q in Entry(m, name).pieces || exists f, p :: f in fs && FromField(name, q, offset, f, p)
  {
    if fs != [] {
      var n := |fs| - 1;
      MergedFieldPieces(m, fs[..n], offset, name, q);
      assert fs == fs[..n] + [fs[n]];
      var shifted := ShiftPieces(fs[n].pieces, offset);
      if q in shifted {
        var k :| 0 <= k < |shifted| && shifted[k] == q;
        assert FromField(fs[n].name, q, offset, fs[n], fs[n].pieces[k]);
      }
      if p :| FromField(name, q, offset, fs[n], p) {
        var k :| 0 <= k < |fs[n].pieces| && fs[n].pieces[k] == p;
        assert shifted[k] == q;
      }
    }
  }

  lemma {:induction false} SameOffsets(parts: seq<Part>, n: nat)
    requires n <= |parts|
    ensures forall i :: 0 <= i < n ==> parts[..n][i] == parts[i] && Offset(parts[..n], i) == Offset(parts, i)
  {
    assert forall i :: 0 <= i < n ==> parts[..n][..i] == parts[..i];
  }

  lemma {:induction false} NoMergedPieces(name: string)
    ensures Entry(MergeParts([]), name).pieces == []
  {
  }

  /** The merged entry of a name holds exactly the shifted pieces of the fields of that name. */
  lemma {:induction false} MergedPieces(parts: seq<Part>, name: string, q: Piece)
    ensures q in Entry(MergeParts(parts), name).pieces <==>
            exists i, f, p :: 0 <= i < |parts| && FromPart(parts, name, q, i, f, p)
  {
    hide MergeFields, Entry, Offset, ShiftPiece;
    if parts != [] {
      var n := |parts| - 1;
      var less := parts[..n];
      MergedPieces(less, name, q);
      MergedFieldPieces(MergeParts(less), parts[n].fields, Offset(parts, n), name, q);
      SameOffsets(parts, n);
      if i, f, p :| 0 <= i < n && FromPart(less, name, q, i, f, p) {
        assert FromPart(parts, name, q, i, f, p);
      }
      if f, p :| f in parts[n].fields && FromField(name, q, Offset(parts, n), f, p) {
        assert FromPart(parts, name, q, n, f, p);
      }
      if i, f, p :| 0 <= i < |parts| && FromPart(parts, name, q, i, f, p) {
        if i < n {
          assert FromPart(less, name, q, i, f, p);
        } else {
          assert FromField(name, q, Offset(parts, n), f, p);
        }
      }
    } else {
      NoMergedPieces(name);
    }
  }

  lemma {:induction false} InsertKeeps(p: Piece, s: seq<Piece>)
    ensures multiset(Insert(p, s)) == multiset(s) + multiset{p}
  {
    if s != [] && !Before(p, s[0]) {
      InsertKeeps(p, s[1..]);
      assert s == [s[0]] + s[1..];
    }
  }

  lemma {:induction false} SortKeeps(ps: seq<Piece>)
    ensures multiset(SortPieces(ps)) == multiset(ps)
  {
    if ps != [] {
      SortKeeps(ps[..|ps| - 1]);
      InsertKeeps(ps[|ps| - 1], SortPieces(ps[..|ps| - 1]));
      assert ps == ps[..|ps| - 1] + [ps[|ps| - 1]];
    }
  }

  /** No later piece is to come before an earlier one. */
  predicate Sorted(ps: seq<Piece>) {
    forall j, k :: 0 <= j < k < |ps| ==> !Before(ps[k], ps[j])
  }

  lemma {:induction false} InsertSorts(p: Piece, s: seq<Piece>)
    requires Sorted(s)
    ensures Sorted(Insert(p, s))
  {
    if s != [] && !Before(p, s[0]) {
      InsertSorts(p, s[1..]);
      InsertKeeps(p, s[1..]);
      var r := Insert(p, s[1..]);
      forall k | 0 <= k < |r|
        ensures !Before(r[k], s[0])
      {
        assert r[k] in multiset(r);
        assert r[k] in s[1..] || r[k] == p;
      }
    }
  }

  /** The generator's sort gives the same pieces in order. */
  lemma {:induction false} SortSorts(ps: seq<Piece>)
    ensures Sorted(SortPieces(ps)) && multiset(SortPieces(ps)) == multiset(ps)
  {
    SortKeeps(ps);
    if ps != [] {
      SortSorts(ps[..|ps| - 1]);
      InsertSorts(ps[|ps| - 1], SortPieces(ps[..|ps| - 1]));
    }
  }

  lemma {:induction false} SortSameElements(ps: seq<Piece>, p: Piece)
    ensures p in SortPieces(ps) <==> p in ps
  {
    SortKeeps(ps);
    assert p in SortPieces(ps) <==> p in multiset(SortPieces(ps));
  }

  predicate PiecesInside(parts: seq<Part>) {
    forall i, f, p :: 0 <= i < |parts| && f in parts[i].fields && p in f.pieces
      ==> p.insnLsb + p.width <= parts[i].widthBits
  }

  /** Reading a merged field from a word reads, bit for bit, what the part-level fields of that name
      read from their own slices. */
  lemma {:induction false} MergedFieldReadsParts(parts: seq<Part>, name: string, w: Word, b: nat)
    requires PiecesInside(parts) && TotalWidth(parts) <= 64 && b < 64
    ensures RawBits(SortPieces(Entry(MergeParts(parts), name).pieces), w)[b] <==>
            exists i, f :: 0 <= i < |parts| && f in parts[i].fields && f.name == name
              && RawBits(f.pieces, PartSlice(w, Offset(parts, i), parts[i].widthBits))[b]
  {
    var merged := Entry(MergeParts(parts), name).pieces;
    RawBit(SortPieces(merged), w, b);
    if q :| q in SortPieces(merged) && ValueHit(q, w, b) {
      SortSameElements(merged, q);
      MergedPieces(parts, name, q);
      var i, f, p :| 0 <= i < |parts| && FromPart(parts, name, q, i, f, p);
      ShiftedHit(parts, i, f, p, w, b);
      RawBit(f.pieces, PartSlice(w, Offset(parts, i), parts[i].widthBits), b);
    }
    if i, f :| 0 <= i < |parts| && f in parts[i].fields && f.name == name
               && RawBits(f.pieces, PartSlice(w, Offset(parts, i), parts[i].widthBits))[b] {
      RawBit(f.pieces, PartSlice(w, Offset(parts, i), parts[i].widthBits), b);
      var p :| p in f.pieces && ValueHit(p, PartSlice(w, Offset(parts, i), parts[i].widthBits), b);
      var q := ShiftPiece(p, Offset(parts, i));
      assert FromPart(parts, name, q, i, f, p);
      MergedPieces(parts, name, q);
      SortSameElements(merged, q);
      ShiftedHit(parts, i, f, p, w, b);
    }
  }

  lemma {:induction false} ShiftedHit(parts: seq<Part>, i: nat, f: SpecField, p: Piece, w: Word, b: nat)
    requires PiecesInside(parts) && TotalWidth(parts) <= 64 && b < 64
    requires i < |parts| && f in parts[i].fields && p in f.pieces
    ensures ValueHit(ShiftPiece(p, Offset(parts, i)), w, b) <==>
            ValueHit(p, PartSlice(w, Offset(parts, i), parts[i].widthBits), b)
  {
    OffsetsFit(parts, i);
    assert p.insnLsb + p.width <= parts[i].widthBits;
  }

  predicate SomeSigned(fs: seq<SpecField>, name: string, signed: bool) {
    exists f :: f in fs && f.name == name && f.signed == W.Some(signed)
  }

  predicate SomePartSigned(parts: seq<Part>, name: string, signed: bool) {
    exists i :: 0 <= i < |parts| && SomeSigned(parts[i].fields, name, signed)
  }

  lemma {:induction false} MergedFieldHint(m: MergeState, fs: seq<SpecField>, offset: nat, name: string)
    requires Entry(m, name).signedHint in {-1, 0, 1}
    ensures
      var before := Entry(m, name).signedHint;
      Entry(MergeFields(m, fs, offset), name).signedHint ==
        if before == 1 || SomeSigned(fs, name, true) then 1
        else if before == 0 || SomeSigned(fs, name, false) then 0 else -1
  {
    if fs != [] {
      var n := |fs| - 1;
      MergedFieldHint(m, fs[..n], offset, name);
      assert fs == fs[..n] + [fs[n]];
      assert forall b :: SomeSigned(fs, name, b) <==>
               SomeSigned(fs[..n], name, b) || (fs[n].name == name && fs[n].signed == W.Some(b));
    }
  }

  /** A merged field is signed when any of its parts says so, unsigned when none does and some part
      says unsigned, and left open otherwise; the order of the parts does not matter. */
  lemma {:induction false} MergedHint(parts: seq<Part>, name: string)
    ensures Entry(MergeParts(parts), name).signedHint ==
              if SomePartSigned(parts, name, true) then 1
              else if SomePartSigned(parts, name, false) then 0 else -1
  {
    if parts != [] {
      var n := |parts| - 1;
      MergedHint(parts[..n], name);
      MergedFieldHint(MergeParts(parts[..n]), parts[n].fields, Offset(parts, n), name);
      assert parts == parts[..n] + [parts[n]];
      assert forall b :: SomePartSigned(parts, name, b) <==>
               SomePartSigned(parts[..n], name, b) || SomeSigned(parts[n].fields, name, b);
    }
  }

  // ---------- Well-formed instructions give well-formed forms ----------

  function CoverCount(ps: seq<Piece>, i: nat): nat {
    if ps == [] then 0
    else CoverCount(ps[..|ps| - 1], i) + if Covers(ps[|ps| - 1], i) then 1 else 0
  }

  lemma {:induction false} CoverSplit(a: seq<Piece>, b: seq<Piece>, i: nat)
    ensures CoverCount(a + b, i) == CoverCount(a, i) + CoverCount(b, i)
  {
    if b == [] {
      assert a + b == a;
    } else {
      CoverSplit(a, b[..|b| - 1], i);
      assert (a + b)[..|a + b| - 1] == a + b[..|b| - 1];
    }
  }

  lemma {:induction false} InsertCover(p: Piece, s: seq<Piece>, i: nat)
    ensures CoverCount(Insert(p, s), i) == CoverCount(s, i) + if Covers(p, i) then 1 else 0
  {
    CoverSplit([p], s, i);
    assert [p][..0] == [];
    if s != [] && !Before(p, s[0]) {
      InsertCover(p, s[1..], i);
      CoverSplit([s[0]], Insert(p, s[1..]), i);
      CoverSplit([s[0]], s[1..], i);
      assert s == [s[0]] + s[1..];
    }
  }

  lemma {:induction false} SortCover(ps: seq<Piece>, i: nat)
    ensures CoverCount(SortPieces(ps), i) == CoverCount(ps, i)
  {
    if ps != [] {
      SortCover(ps[..|ps| - 1], i);
      InsertCover(ps[|ps| - 1], SortPieces(ps[..|ps| - 1]), i);
    }
  }

  lemma {:induction false} CoverOfTwo(ps: seq<Piece>, j: nat, k: nat, i: nat)
    requires j < k < |ps| && Covers(ps[j], i) && Covers(ps[k], i)
    ensures CoverCount(ps, i) >= 2
  {
    var n := |ps| - 1;
    if k < n {
      CoverOfTwo(ps[..n], j, k, i);
    } else {
      CoverOfOne(ps[..n], j, i);
    }
  }

  lemma {:induction false} CoverOfOne(ps: seq<Piece>, j: nat, i: nat)
    requires j < |ps| && Covers(ps[j], i)
    ensures CoverCount(ps, i) >= 1
  {
    var n := |ps| - 1;
    if j < n {
      CoverOfOne(ps[..n], j, i);
    }
  }

  lemma {:induction false} SingleCoverDisjoint(ps: seq<Piece>)
    requires forall i :: 0 <= i ==> CoverCount(ps, i) <= 1
    ensures PairwiseDisjoint(ps)
  {
    forall j, k | 0 <= j < k < |ps|
      ensures Disjoint(ps[j], ps[k])
    {
      if !Disjoint(ps[j], ps[k]) {
        var i := if ps[j].insnLsb > ps[k].insnLsb then ps[j].insnLsb else ps[k].insnLsb;
        CoverOfTwo(ps, j, k, i);
        assert false;
      }
    }
  }

  /** How many pieces of an instruction hold bit i, counted part by part as the spec gives them. */
  function FieldsCover(fs: seq<SpecField>, offset: nat, i: nat): nat {
    if fs == [] then 0
    else FieldsCover(fs[..|fs| - 1], offset, i) + CoverCount(ShiftPieces(fs[|fs| - 1].pieces, offset), i)
  }

  function PartsCover(parts: seq<Part>, i: nat): nat {
    if parts == [] then 0
    else
      var n := |parts| - 1;
      PartsCover(parts[..n], i) + FieldsCover(parts[n].fields, Offset(parts, n), i)
  }

  /** The same count over the merged entries of the names in `order`. */
  function OrderCover(order: seq<string>, m: MergeState, i: nat): nat {
    if order == [] then 0
    else OrderCover(order[..|order| - 1], m, i) + CoverCount(Entry(m, order[|order| - 1]).pieces, i)
  }

  ghost predicate Keyed(m: MergeState) {
    && (forall name :: name in m.order <==> name in m.fields)
    && (forall j, k :: 0 <= j < k < |m.order| ==> m.order[j] != m.order[k])
  }

  lemma {:induction false} OrderCoverUnchanged(order: seq<string>, m: MergeState, m': MergeState, i: nat)
    requires forall name :: name in order ==> Entry(m, name) == Entry(m', name)
    ensures OrderCover(order, m, i) == OrderCover(order, m', i)
  {
    if order != [] {
      OrderCoverUnchanged(order[..|order| - 1], m, m', i);
    }
  }

  lemma {:induction false} OrderCoverAfterMerge(order: seq<string>, m: MergeState, f: SpecField, offset: nat, i: nat)
    requires forall j, k :: 0 <= j < k < |order| ==> order[j] != order[k]
    ensures OrderCover(order, MergeField(m, f, offset), i) ==
            OrderCover(order, m, i) + if f.name in order then CoverCount(ShiftPieces(f.pieces, offset), i) else 0
  {
    if order != [] {
      var n := |order| - 1;
      assert order == order[..n] + [order[n]];
      if order[n] == f.name {
        CoverSplit(Entry(m, f.name).pieces, ShiftPieces(f.pieces, offset), i);
        OrderCoverUnchanged(order[..n], m, MergeField(m, f, offset), i);
      } else {
        OrderCoverAfterMerge(order[..n], m, f, offset, i);
      }
    }
  }

  lemma {:induction false} MergeFieldCover(m: MergeState, f: SpecField, offset: nat, i: nat)
    requires Keyed(m)
    ensures Keyed(MergeField(m, f, offset))
    ensures OrderCover(MergeField(m, f, offset).order, MergeField(m, f, offset), i) ==
            OrderCover(m.order, m, i) + CoverCount(ShiftPieces(f.pieces, offset), i)
  {
    var m' := MergeField(m, f, offset);
    OrderCoverAfterMerge(m.order, m, f, offset, i);
    if f.name !in m.fields {
      assert m'.order[..|m'.order| - 1] == m.order;
      CoverSplit([], ShiftPieces(f.pieces, offset), i);
    }
  }

  lemma {:induction false} MergeFieldsCover(m: MergeState, fs: seq<SpecField>, offset: nat, i: nat)
    requires Keyed(m)
    ensures Keyed(MergeFields(m, fs, offset))
    ensures OrderCover(MergeFields(m, fs, offset).order, MergeFields(m, fs, offset), i) ==
            OrderCover(m.order, m, i) + FieldsCover(fs, offset, i)
  {
    if fs != [] {
      var n := |fs| - 1;
      MergeFieldsCover(m, fs[..n], offset, i);
      MergeFieldCover(MergeFields(m, fs[..n], offset), fs[n], offset, i);
    }
  }

  /** Merging by name and regrouping by field count every piece once. */
  lemma {:induction false} MergePartsCover(parts: seq<Part>, i: nat)
    ensures Keyed(MergeParts(parts))
    ensures OrderCover(MergeParts(parts).order, MergeParts(parts), i) == PartsCover(parts, i)
  {
    if parts != [] {
      var n := |parts| - 1;
      MergePartsCover(parts[..n], i);
      MergeFieldsCover(MergeParts(parts[..n]), parts[n].fields, Offset(parts, n), i);
    }
  }

  lemma {:induction false} FlatCover(t: Table, fs: seq<Field>, m: MergeState, n: nat, i: nat)
    requires FieldsDescribe(t, fs, m) && n <= |fs|
    ensures CoverCount(AllPieces(t, fs[..n]), i) == OrderCover(m.order[..n], m, i)
  {
    hide SortPieces, Entry, Covers, PiecesFor;
    if n > 0 {
      FlatCover(t, fs, m, n - 1, i);
      assert fs[..n][..n - 1] == fs[..n - 1] && m.order[..n][..n - 1] == m.order[..n - 1];
      var e := Entry(m, m.order[n - 1]);
      assert FieldDescribes(t, fs[n - 1], m.order[n - 1], e);
      CoverSplit(AllPieces(t, fs[..n - 1]), PiecesFor(t, fs[n - 1]), i);
      SortCover(e.pieces, i);
    }
  }

  predicate OnDots(part: Part, p: Piece)
    requires |Strip(part.pattern)| == part.widthBits
  {
    forall b :: Covers(p, b) && 0 <= b < part.widthBits ==> BitChar(Strip(part.pattern), b) == '.'
  }

  /** What the instruction description itself must satisfy, part by part. */
  ghost predicate SpecWellFormed(inst: Instruction) {
    var m := MergeParts(inst.parts);
    && DeclaredWidths(inst.parts)
    && ValidLength(LengthBits(inst)) && TotalWidth(inst.parts) <= LengthBits(inst)
    && PiecesInside(inst.parts)
    && (forall i, f, p :: 0 <= i < |inst.parts| && f in inst.parts[i].fields && p in f.pieces ==>
          OnDots(inst.parts[i], p))
    && (forall i :: 0 <= i ==> PartsCover(inst.parts, i) <= 1)
    && (forall name :: name in m.order ==>
          WidthOf(SortPieces(Entry(m, name).pieces)) <= 64
          && Tiled(SortPieces(Entry(m, name).pieces), WidthOf(SortPieces(Entry(m, name).pieces))))
    && (forall c :: c in PartsConstraints(inst.parts) ==> c.fieldName in m.order)
  }

  lemma {:induction false} WidthBounds(ps: seq<Piece>, p: Piece)
    requires p in ps
    ensures p.valueLsb + p.width <= WidthOf(ps)
  {
    var n := |ps| - 1;
    if p != ps[n] {
      assert ps == ps[..n] + [ps[n]];
      WidthBounds(ps[..n], p);
    }
  }

  /** A piece lying on the dots of its own part lies on bits the generated mask leaves free. */
  lemma {:induction false} FreeBit(inst: Instruction, i: nat, p: Piece, b: nat)
    requires DeclaredWidths(inst.parts) && i < |inst.parts| && OnDots(inst.parts[i], p)
    requires p.insnLsb + p.width <= inst.parts[i].widthBits
    requires TotalWidth(inst.parts) <= LengthBits(inst) && 0 < LengthBits(inst)
    requires Covers(ShiftPiece(p, Offset(inst.parts, i)), b) && b < 64
    ensures !MaskWord(FormPattern(inst))[b]
  {
    hide Strip, JoinedPattern, FitPattern, TotalWidth, LengthBits, BitChar, MaskWord, Offset;
    var own := b - Offset(inst.parts, i);
    assert Covers(p, own);
    JoinedLength(inst.parts);
    OffsetsFit(inst.parts, i);
    JoinedChar(inst.parts, i, own);
    FittedLength(JoinedPattern(inst.parts), LengthBits(inst));
    FittedChar(JoinedPattern(inst.parts), LengthBits(inst), b);
  }

  lemma {:induction false} GeneratedPieceInside(t: Table, form: Form, inst: Instruction, f: Field, q: Piece)
    requires SpecWellFormed(inst) && Describes(t, form, inst)
    requires f in FieldsFor(t, form) && q in PiecesFor(t, f)
    ensures PieceInside(q, f, form)
  {
    var parts, m := inst.parts, MergeParts(inst.parts);
    var j :| 0 <= j < |FieldsFor(t, form)| && FieldsFor(t, form)[j] == f;
    assert FieldDescribes(t, f, m.order[j], Entry(m, m.order[j]));
    WidthBounds(PiecesFor(t, f), q);
    SortSameElements(Entry(m, m.order[j]).pieces, q);
    MergedPieces(parts, m.order[j], q);
    var i, sf, p :| 0 <= i < |parts| && FromPart(parts, m.order[j], q, i, sf, p);
    OffsetsFit(parts, i);
    assert p.insnLsb + p.width <= parts[i].widthBits && OnDots(parts[i], p);
    forall b | Covers(q, b) && 0 <= b < 64
      ensures !form.mask[b]
    {
      FreeBit(inst, i, p, b);
    }
  }

  lemma {:induction false} GeneratedDisjoint(t: Table, form: Form, inst: Instruction)
    requires SpecWellFormed(inst) && Describes(t, form, inst)
    ensures PairwiseDisjoint(AllPieces(t, FieldsFor(t, form)))
  {
    var m, fs := MergeParts(inst.parts), FieldsFor(t, form);
    forall i | 0 <= i
      ensures CoverCount(AllPieces(t, fs), i) <= 1
    {
      MergePartsCover(inst.parts, i);
      FlatCover(t, fs, m, |fs|, i);
      assert fs[..|fs|] == fs && m.order[..|fs|] == m.order;
      assert PartsCover(inst.parts, i) <= 1;
    }
    SingleCoverDisjoint(AllPieces(t, fs));
  }

  lemma {:induction false} GeneratedFields(t: Table, form: Form, inst: Instruction)
    requires SpecWellFormed(inst) && Describes(t, form, inst)
    ensures DistinctNames(FieldsFor(t, form))
    ensures forall f :: f in FieldsFor(t, form) ==> f.bitWidth <= 64 && Tiled(PiecesFor(t, f), f.bitWidth)
    ensures forall c :: c in ConstraintsFor(t, form) ==> exists f :: f in FieldsFor(t, form) && f.name == c.fieldName
  {
    var m, fs := MergeParts(inst.parts), FieldsFor(t, form);
    MergePartsCover(inst.parts, 0);
    forall j | 0 <= j < |fs|
      ensures fs[j].name == m.order[j] && fs[j].bitWidth <= 64 && Tiled(PiecesFor(t, fs[j]), fs[j].bitWidth)
    {
      assert FieldDescribes(t, fs[j], m.order[j], Entry(m, m.order[j]));
      assert m.order[j] in m.order;
    }
    forall c | c in ConstraintsFor(t, form)
      ensures exists f :: f in fs && f.name == c.fieldName
    {
      var j :| 0 <= j < |m.order| && m.order[j] == c.fieldName;
      assert fs[j] in fs;
    }
  }

  /** The form generated for a well-formed instruction meets everything the codec asks for. */
  lemma {:induction false} GeneratedFormWellFormed(t: Table, form: Form, inst: Instruction)
    requires SpecWellFormed(inst) && Describes(t, form, inst)
    ensures FormWellFormed(t, form)
  {
    JoinedLength(inst.parts);
    GeneratedFields(t, form, inst);
    GeneratedDisjoint(t, form, inst);
    forall f, p | f in FieldsFor(t, form) && p in PiecesFor(t, f)
      ensures PieceInside(p, f, form)
    {
      GeneratedPieceInside(t, form, inst, f, p);
    }
    assert And(form.pattern, form.mask) == form.pattern;
  }

  /** So packets built on generated tables survive encoding: the encoded word satisfies every part's
      pattern and reads back every field value. */
  lemma {:induction false} GeneratedRoundTrip(t: Table, insts: seq<Instruction>, k: nat, d: Decoded)
    requires |t.forms| == |insts| && forall j :: 0 <= j < |insts| ==> Describes(t, t.forms[j], insts[j])
    requires k < |insts| && SpecWellFormed(insts[k])
    requires d.form == W.Some(t.forms[k]) && Encoded(t, d).valid
    ensures
      var w := Encoded(t, d).bits;
      && PartsAccept(insts[k], w)
      && (forall f :: f in FieldsFor(t, t.forms[k]) ==>
            FindNamed(d.fields, DecodedName, f.name).Some?
            && ExtractFieldValue(t, f, w) == FindNamed(d.fields, DecodedName, f.name).value.value)
  {
    GeneratedFormWellFormed(t, t.forms[k], insts[k]);
    EncodeThenDecode(t, k, d);
    JoinedLength(insts[k].parts);
    MaskMatchIsPartwise(insts[k], Encoded(t, d).bits);
  }
}
