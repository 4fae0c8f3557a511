/** The variable-length disassembly walk over a section. */
module Disasm {
  import opened Words
  import W = Wrappers
  import opened CodecTables
  import opened Codec
  import opened ByteMemory

  /** One listing line; the bytes stand for their hexadecimal dump. */
  datatype Line = Line(
    pc: u64, bits: Word, lengthBits: nat, sizeBytes: nat, status: CodecStatus, bytes: seq<u8>, form: W.Option<Form>)

  datatype CodeSection = CodeSection(address: u64, bytes: seq<u8>, executable: bool)

  method PackLittleEndian(bytes: seq<u8>, size: nat) returns (value: Word)
    requires size <= |bytes| && size <= 8
    ensures value == Packed(bytes[..size])
  {
    value := Zero();
    PackedNothing();
    for idx := 0 to size
      invariant value == Packed(bytes[..idx])
    {
      OrByteGrows(bytes[..idx], bytes[idx]);
      assert bytes[..idx + 1] == bytes[..idx] + [bytes[idx]];
      value := OrByte(value, bytes[idx], idx);
    }
  }

  // ---------- The best decoding of the front of some bytes ----------

  predicate CandidateSize(n: nat) {
    n == 2 || n == 4 || n == 6 || n == 8
  }

  /** What the first n bytes decode to. */
  ghost function Candidate(t: Table, bytes: seq<u8>, n: nat): (d: W.Option<Decoded>)
    ensures d.Some? ==> CandidateSize(n) && n <= |bytes| && d.value.form.Some?
  {
    if !CandidateSize(n) || |bytes| < n then W.None
    else
      var d := DecodedWord(t, Packed(bytes[..n]), 8 * n);
      if d.decodeStatus == CodecStatus.Ok then W.Some(d) else W.None
  }

  function FixedBits(d: Decoded): nat {
    if d.form.None? then 0 else d.form.value.fixedBits
  }

  /** Length n decodes, with more fixed bits than any other length that does, or as many and shorter. */
  ghost predicate Best(t: Table, bytes: seq<u8>, n: nat) {
    && Candidate(t, bytes, n).Some?
    && forall k {:trigger Candidate(t, bytes, k)} :: 0 <= k && k != n && Candidate(t, bytes, k).Some? ==>
         var mine, other := FixedBits(Candidate(t, bytes, n).value), FixedBits(Candidate(t, bytes, k).value);
         other < mine || (other == mine && n < k)
  }

  lemma {:induction false} BestIsUnique(t: Table, bytes: seq<u8>, n: nat, k: nat)
    requires Best(t, bytes, n) && Best(t, bytes, k)
    ensures n == k
  {
    assert Candidate(t, bytes, n).Some? && Candidate(t, bytes, k).Some?;
  }

  ghost function BestLine(t: Table, bytes: seq<u8>, pc: u64, n: nat): Line
    requires Best(t, bytes, n)
  {
    Line(pc, Packed(bytes[..n]), 8 * n, n, CodecStatus.Ok, bytes[..n], Candidate(t, bytes, n).value.form)
  }

  function ByteLine(byte: u8, pc: u64): Line {
    Line(pc, FromNat(byte, 64), 8, 1, NoMatch, [byte], W.None)
  }

  /** The line for the front of some bytes: the best decoding, or one plain byte. */
  ghost predicate IsLine(t: Table, bytes: seq<u8>, pc: u64, line: Line) {
    && bytes != []
    && if exists n: nat :: Best(t, bytes, n)
       then exists n: nat :: Best(t, bytes, n) && line == BestLine(t, bytes, pc, n)
       else line == ByteLine(bytes[0], pc)
  }

  /** One candidate length of `DecodeBest`. */
  method TryLength(t: Table, bytes: seq<u8>, n: nat) returns (inst: W.Option<Minst>, bits: Word)
    requires CandidateSize(n) && n <= |bytes|
    ensures inst.Some? ==> fresh(inst.value)
    ensures bits == Packed(bytes[..n])
    ensures Candidate(t, bytes, n) == if inst.Some? then W.Some(inst.value.Data()) else W.None
  {
    bits := PackLittleEndian(bytes, n);
    var candidate := new Minst.CreateFetch(0, 0, Zero(), 0);
    var status := DecodePackedWord(t, bits, 8 * n, candidate);
    inst := if status == CodecStatus.Ok then W.Some(candidate) else W.None;
  }

  /** The best among the lengths below the limit. */
  ghost predicate BestBelow(t: Table, bytes: seq<u8>, limit: nat, n: nat) {
    && n < limit && Candidate(t, bytes, n).Some?
    && forall k {:trigger Candidate(t, bytes, k)} :: 0 <= k < limit && k != n && Candidate(t, bytes, k).Some? ==>
         var mine, other := FixedBits(Candidate(t, bytes, n).value), FixedBits(Candidate(t, bytes, k).value);
         other < mine || (other == mine && n < k)
  }

  ghost predicate NoneBelow(t: Table, bytes: seq<u8>, limit: nat) {
    forall k {:trigger Candidate(t, bytes, k)} :: 0 <= k < limit ==> Candidate(t, bytes, k).None?
  }

  /** Only the four candidate lengths can decode. */
  lemma {:induction false} LimitStep(t: Table, bytes: seq<u8>, limit: nat)
    requires limit % 2 == 0 && Candidate(t, bytes, limit).None?
    ensures NoneBelow(t, bytes, limit) ==> NoneBelow(t, bytes, limit + 2)
    ensures forall n: nat :: BestBelow(t, bytes, limit, n) ==> BestBelow(t, bytes, limit + 2, n)
  {
    hide Candidate;
    OddDoesNotDecode(t, bytes, limit + 1);
  }

  lemma {:induction false} OddDoesNotDecode(t: Table, bytes: seq<u8>, n: nat)
    requires n % 2 == 1 || n == 0 || n > 8
    ensures Candidate(t, bytes, n).None?
  {
  }

  lemma {:induction false} LimitTaken(t: Table, bytes: seq<u8>, limit: nat, n: nat)
    requires limit % 2 == 0 && Candidate(t, bytes, limit).Some?
    ensures NoneBelow(t, bytes, limit) ==> BestBelow(t, bytes, limit + 2, limit)
    ensures BestBelow(t, bytes, limit, n) ==>
              var mine, other := FixedBits(Candidate(t, bytes, n).value), FixedBits(Candidate(t, bytes, limit).value);
              BestBelow(t, bytes, limit + 2, if other > mine then limit else n)
  {
    hide Candidate;
    OddDoesNotDecode(t, bytes, limit + 1);
  }

  lemma {:induction false} AllLengthsTried(t: Table, bytes: seq<u8>)
    ensures NoneBelow(t, bytes, 10) ==> !exists n: nat :: Best(t, bytes, n)
    ensures forall n: nat :: BestBelow(t, bytes, 10, n) ==> Best(t, bytes, n)
  {
    hide Candidate;
    forall n: nat | n >= 10
      ensures Candidate(t, bytes, n).None?
    {
      OddDoesNotDecode(t, bytes, n);
    }
  }

  method DecodeBest(t: Table, bytes: seq<u8>) returns (best: W.Option<Minst>, size: nat, bits: Word)
    ensures best.None? ==> !exists n: nat :: Best(t, bytes, n)
    ensures best.Some? ==> Best(t, bytes, size) && best.value.Data() == Candidate(t, bytes, size).value
    ensures best.Some? ==> size <= |bytes| && bits == Packed(bytes[..size])
  {
    hide Candidate;
    best, size, bits := W.None, 0, Zero();
    var bestFixed := -1;
    OddDoesNotDecode(t, bytes, 0);
    OddDoesNotDecode(t, bytes, 1);
    for k := 1 to 5
      invariant best.None? ==> NoneBelow(t, bytes, 2 * k)
      invariant best.Some? ==>
        && BestBelow(t, bytes, 2 * k, size) && best.value.Data() == Candidate(t, bytes, size).value
        && bestFixed == FixedBits(best.value.Data()) && fresh(best.value)
      invariant best.Some? ==> size <= |bytes| && bits == Packed(bytes[..size])
    {
      var n := 2 * k;
      if |bytes| < n {
        TooShort(t, bytes, n);
        LimitStep(t, bytes, n);
        continue;
      }
      var candidate, word := TryLength(t, bytes, n);
      if candidate.None? {
        LimitStep(t, bytes, n);
        continue;
      }
      LimitTaken(t, bytes, n, size);
      var fixedBits := if candidate.value.form.None? then 0 else candidate.value.form.value.fixedBits;
      if best.None? || fixedBits > bestFixed || (fixedBits == bestFixed && n < size) {
        best, size, bits, bestFixed := candidate, n, word, fixedBits;
      }
    }
    AllLengthsTried(t, bytes);
  }

  lemma {:induction false} TooShort(t: Table, bytes: seq<u8>, n: nat)
    requires |bytes| < n
    ensures Candidate(t, bytes, n).None?
  {
  }

  method DecodeDisassemblyLine(t: Table, bytes: seq<u8>, pc: u64) returns (line: W.Option<Line>)
    ensures line.None? <==> bytes == []
    ensures line.Some? ==> IsLine(t, bytes, pc, line.value)
  {
    hide Candidate;
    var best, size, bits := DecodeBest(t, bytes);
    if best.None? {
      if |bytes| == 0 {
        return W.None;
      }
      return W.Some(ByteLine(bytes[0], pc));
    }
    OddDoesNotDecode(t, bytes, 0);
    DecodedStatus(t, bytes, size);
    return W.Some(Line(pc, bits, 8 * size, size, best.value.decodeStatus, bytes[..size], best.value.form));
  }

  lemma {:induction false} DecodedStatus(t: Table, bytes: seq<u8>, n: nat)
    requires Candidate(t, bytes, n).Some?
    ensures Candidate(t, bytes, n).value.decodeStatus == CodecStatus.Ok && 0 < n <= |bytes|
  {
  }

  // ---------- The walk ----------

  /** The lines of the first `count` bytes of a walk: each line looks at everything from its start on. */
  ghost predicate WalkOver(t: Table, bytes: seq<u8>, pc: u64, lines: seq<Line>, count: nat)
    decreases |lines|
  {
    if lines == [] then count == 0
    else
      var n := lines[0].sizeBytes;
      && IsLine(t, bytes, pc, lines[0]) && 0 < n <= count && n <= |bytes|
      && WalkOver(t, bytes[n..], Offset(pc, n), lines[1..], count - n)
  }

  lemma {:induction false} LineSize(t: Table, bytes: seq<u8>, pc: u64, line: Line)
    requires IsLine(t, bytes, pc, line)
    ensures line.sizeBytes in {1, 2, 4, 6, 8} && line.sizeBytes <= |bytes|
    ensures line.pc == pc && line.lengthBits == 8 * line.sizeBytes
    ensures line.bytes == bytes[..line.sizeBytes] && line.bits == Packed(line.bytes)
    ensures line.status == CodecStatus.Ok || line.sizeBytes == 1
  {
    if !exists n: nat :: Best(t, bytes, n) {
      assert bytes[..1] == [bytes[0]];
      BytePacked(bytes[0]);
    }
  }

  lemma {:induction false} BytePacked(byte: u8)
    ensures Packed([byte]) == FromNat(byte, 64)
  {
    forall i | 0 <= i < 64
      ensures Packed([byte])[i] == FromNat(byte, 64)[i]
    {
      ByteBits(byte, i);
    }
  }

  /** Walks can be extended at the end. */
  lemma {:induction false} WalkExtends(t: Table, bytes: seq<u8>, pc: u64, lines: seq<Line>, count: nat, line: Line)
    requires WalkOver(t, bytes, pc, lines, count) && count <= |bytes|
    requires IsLine(t, bytes[count..], Offset(pc, count), line) && 0 < line.sizeBytes <= |bytes| - count
    ensures WalkOver(t, bytes, pc, lines + [line], count + line.sizeBytes)
    decreases |lines|
  {
    hide IsLine;
    if lines == [] {
      ModUnique(pc, 0, pc);
      assert bytes[0..] == bytes && ([] + [line])[1..] == [];
      assert WalkOver(t, bytes[line.sizeBytes..], Offset(pc, line.sizeBytes), [], 0);
    } else {
      var n := lines[0].sizeBytes;
      OffsetAdds(pc, n, count - n);
      assert bytes[n..][count - n..] == bytes[count..];
      WalkExtends(t, bytes[n..], Offset(pc, n), lines[1..], count - n, line);
      assert (lines + [line])[1..] == lines[1..] + [line];
    }
  }

  lemma {:induction false} OffsetAdds(a: u64, i: nat, j: nat)
    ensures Offset(Offset(a, i), j) == Offset(a, i + j)
  {
    var q := (a + i) / TWO_64;
    assert a + i == q * TWO_64 + Offset(a, i);
    var n := Offset(a, i) + j;
    var q2 := n / TWO_64;
    assert n == q2 * TWO_64 + n % TWO_64;
    assert a + i + j == (q + q2) * TWO_64 + n % TWO_64;
    ModUnique(a + (i + j), q + q2, n % TWO_64);
  }

  method DisassembleSection(t: Table, section: CodeSection) returns (lines: seq<Line>)
    ensures !section.executable ==> lines == []
    ensures section.executable ==> WalkOver(t, section.bytes, section.address, lines, |section.bytes|)
  {
    hide IsLine;
    lines := [];
    if !section.executable {
      return;
    }
    var offset := 0;
    while offset < |section.bytes|
      invariant offset <= |section.bytes|
      invariant WalkOver(t, section.bytes, section.address, lines, offset)
      decreases |section.bytes| - offset
    {
      var rest := section.bytes[offset..];
      var pc := Offset(section.address, offset);
      var line := DecodeDisassemblyLine(t, rest, pc);
      if line.None? {
        break;
      }
      LineSize(t, rest, pc, line.value);
      WalkExtends(t, section.bytes, section.address, lines, offset, line.value);
      offset := offset + if line.value.sizeBytes > 1 then line.value.sizeBytes else 1;
      lines := lines + [line.value];
    }
  }
}

module DisasmTheorems {
  import opened Words
  import W = Wrappers
  import opened CodecTables
  import opened Codec
  import opened ByteMemory
  import opened Machines
  import opened Disasm

  // ---------- Tiling ----------

  function SizeUpTo(lines: seq<Line>, i: nat): nat
    requires i <= |lines|
  {
    if i == 0 then 0 else SizeUpTo(lines, i - 1) + lines[i - 1].sizeBytes
  }

  /** The little-endian bytes of all the words of a listing. */
  function LineBytes(lines: seq<Line>): seq<u8> {
    if lines == [] then [] else BytesOf(lines[0].bits, lines[0].sizeBytes) + LineBytes(lines[1..])
  }

  /** Unpacking a packed word gives its bytes back. */
  lemma {:induction false} BytesOfPacked(bytes: seq<u8>)
    requires |bytes| <= 8
    ensures BytesOf(Packed(bytes), |bytes|) == bytes
  {
    forall k | 0 <= k < |bytes|
      ensures ByteOf(Packed(bytes), k) == bytes[k]
    {
      ByteOfPacked(bytes, k);
    }
  }

  lemma {:induction false} ByteOfPacked(bytes: seq<u8>, k: nat)
    requires k < |bytes| <= 8
    ensures ByteOf(Packed(bytes), k) == bytes[k]
  {
    var byte := And(Shr(Packed(bytes), k * 8), Mask(8));
    forall i | 0 <= i < 64
      ensures byte[i] == FromNat(bytes[k], 64)[i]
    {
      ByteBits(bytes[k], i);
    }
    assert byte == FromNat(bytes[k], 64);
    Pow64();
    ToFromNat(bytes[k], 64);
  }

  lemma {:induction false} FirstLine(t: Table, bytes: seq<u8>, pc: u64, lines: seq<Line>)
    requires WalkOver(t, bytes, pc, lines, |bytes|) && lines != []
    ensures
      var n := lines[0].sizeBytes;
      && 0 < n <= |bytes| && lines[0].pc == pc && BytesOf(lines[0].bits, n) == bytes[..n]
      && bytes[..n] + bytes[n..] == bytes && WalkOver(t, bytes[n..], Offset(pc, n), lines[1..], |bytes[n..]|)
  {
    hide IsLine, BytesOf, Packed;
    LineSize(t, bytes, pc, lines[0]);
    BytesOfPacked(bytes[..lines[0].sizeBytes]);
  }

  /** A listing tiles its section: the words' bytes put together are the section, and each line starts
      where the one before it ends. */
  lemma {:induction false} ListingTiles(t: Table, bytes: seq<u8>, pc: u64, lines: seq<Line>)
    requires WalkOver(t, bytes, pc, lines, |bytes|)
    ensures LineBytes(lines) == bytes
    ensures forall i :: 0 <= i < |lines| ==> lines[i].pc == Offset(pc, SizeUpTo(lines, i))
    decreases |lines|
  {
    if lines == [] {
      assert bytes == [];
    } else {
      hide WalkOver, Offset, SizeUpTo, BytesOf;
      FirstLine(t, bytes, pc, lines);
      ListingTiles(t, bytes[lines[0].sizeBytes..], Offset(pc, lines[0].sizeBytes), lines[1..]);
      StartsFromSecond(lines, pc);
    }
  }

  lemma {:induction false} StartsFromSecond(lines: seq<Line>, pc: u64)
    requires lines != [] && lines[0].pc == pc
    requires forall i :: 0 <= i < |lines| - 1 ==>
               lines[1..][i].pc == Offset(Offset(pc, lines[0].sizeBytes), SizeUpTo(lines[1..], i))
    ensures forall i :: 0 <= i < |lines| ==> lines[i].pc == Offset(pc, SizeUpTo(lines, i))
  {
    hide Offset;
    forall i | 0 <= i < |lines|
      ensures lines[i].pc == Offset(pc, SizeUpTo(lines, i))
    {
      if i > 0 {
        SizeFromSecond(lines, i);
        OffsetAdds(pc, lines[0].sizeBytes, SizeUpTo(lines[1..], i - 1));
        assert lines[i] == lines[1..][i - 1];
      } else {
        NoOffset(pc);
      }
    }
  }

  lemma {:induction false} NoOffset(pc: u64)
    ensures Offset(pc, 0) == pc
  {
    ModUnique(pc, 0, pc);
  }

  lemma {:induction false} SizeFromSecond(lines: seq<Line>, i: nat)
    requires 0 < i <= |lines|
    ensures SizeUpTo(lines, i) == lines[0].sizeBytes + SizeUpTo(lines[1..], i - 1)
  {
    if i > 1 {
      SizeFromSecond(lines, i - 1);
      assert lines[1..][i - 2] == lines[i - 1];
    }
  }

  // ---------- What the best length is ----------

  /** The lengths that decode are two, four, six or eight bytes that are there and decode as a word. */
  lemma {:induction false} CandidateExactly(t: Table, bytes: seq<u8>, n: nat)
    ensures Candidate(t, bytes, n).Some? <==>
            n in {2, 4, 6, 8} && n <= |bytes|
            && DecodedWord(t, Packed(bytes[..n]), 8 * n).decodeStatus == CodecStatus.Ok
  {
    hide DecodedWord, Packed;
  }

  /** The form at the best length has more fixed bits than the form at any other length that decodes, or as
      many and fewer bytes. */
  lemma {:induction false} BestHasMostFixedBits(t: Table, bytes: seq<u8>, n: nat, k: nat)
    requires Best(t, bytes, n) && k != n && Candidate(t, bytes, k).Some?
    ensures
      var mine, other := Candidate(t, bytes, n).value.form.value, Candidate(t, bytes, k).value.form.value;
      mine.fixedBits > other.fixedBits || (mine.fixedBits == other.fixedBits && n < k)
  {
    hide DecodedWord, Packed;
  }

  /** Where no length decodes the line is the first byte, marked as matching nothing. */
  lemma {:induction false} UndecodedLine(t: Table, bytes: seq<u8>, pc: u64, line: Line)
    requires IsLine(t, bytes, pc, line) && forall n: nat :: Candidate(t, bytes, n).None?
    ensures
      && line.pc == pc && line.sizeBytes == 1 && line.lengthBits == 8 && line.bytes == [bytes[0]]
      && ToNat(line.bits) == bytes[0] && line.status == NoMatch && line.form.None?
  {
    hide Candidate;
    Pow64();
    ToFromNat(bytes[0], 64);
  }

  /** An input for every length: a table whose one form fixes nothing gives lines of that form's length. */
  lemma {:induction false} OneFormLine(t: Table, form: Form, n: nat, bytes: seq<u8>, pc: u64, line: Line)
    requires n in {2, 4, 6, 8} && n <= |bytes| && t.forms == [form] && form.lengthBits == 8 * n
    requires form.mask == Zero() && form.pattern == Zero() && ConstraintsFor(t, form) == []
    requires IsLine(t, bytes, pc, line)
    ensures line == Line(pc, Packed(bytes[..n]), 8 * n, n, CodecStatus.Ok, bytes[..n], W.Some(form))
  {
    hide Packed, DecodedFields, Sources, Destinations;
    var w := And(Packed(bytes[..n]), Mask(8 * n));
    assert And(w, Zero()) == Zero();
    assert Winner(t, 8 * n, w, 0);
    WinnerUnique(t, 8 * n, w, 0);
    forall k: nat | k != n
      ensures Candidate(t, bytes, k).None?
    {
      OtherLengthFails(t, form, n, bytes, k);
    }
    assert Best(t, bytes, n);
    forall k: nat | Best(t, bytes, k)
      ensures k == n
    {
      BestIsUnique(t, bytes, k, n);
    }
  }

  lemma {:induction false} OtherLengthFails(t: Table, form: Form, n: nat, bytes: seq<u8>, k: nat)
    requires k != n && t.forms == [form] && form.lengthBits == 8 * n
    ensures Candidate(t, bytes, k).None?
  {
    hide Packed, DecodedFields, Sources, Destinations, ConstraintsHold;
    if CandidateSize(k) && k <= |bytes| {
      var w := And(Packed(bytes[..k]), Mask(8 * k));
      assert !FormMatches(form, 8 * k, w);
      assert forall i :: !Winner(t, 8 * k, w, i);
    }
  }

  // ---------- Agreement with the executor's fetch ----------

  /** Every word that matches a form starts with a byte announcing that form's length. */
  ghost predicate LengthsAnnounced(t: Table) {
    forall k, w: Word :: 0 <= k < |t.forms| && FormMatches(t.forms[k], t.forms[k].lengthBits, w) ==>
      t.forms[k].lengthBits == 8 * FetchLength(ByteOf(w, 0))
  }

  lemma {:induction false} MaskedLowByte(bytes: seq<u8>, n: nat)
    requires CandidateSize(n) && n <= |bytes|
    ensures And(Packed(bytes[..n]), Mask(8 * n)) == Packed(bytes[..n])
    ensures ByteOf(Packed(bytes[..n]), 0) == bytes[0]
  {
    ByteOfPacked(bytes[..n], 0);
  }

  /** A length that decodes is the announced one. */
  lemma {:induction false} DecodedLengthAnnounced(t: Table, bytes: seq<u8>, n: nat)
    requires LengthsAnnounced(t) && Candidate(t, bytes, n).Some?
    ensures n == FetchLength(bytes[0])
  {
    hide Packed, ByteOf, FetchLength, And, Mask, FieldsFor, DecodedFields;
    MaskedLowByte(bytes, n);
    ChosenMatches(t, 8 * n, Packed(bytes[..n]));
  }

  lemma {:induction false} ChosenMatches(t: Table, length: int, w: Word)
    requires Choose(t, length, w).Chosen?
    ensures exists k :: 0 <= k < |t.forms| && FormMatches(t.forms[k], t.forms[k].lengthBits, w)
                        && t.forms[k].lengthBits == length
  {
    if exists k :: Winner(t, length, w, k) {
      var k :| Winner(t, length, w, k);
      assert FormMatches(t.forms[k], t.forms[k].lengthBits, w);
    }
  }

  /** Memory holds these bytes from this address on. */
  predicate Holds(m: Memory, pc: u64, bytes: seq<u8>) {
    forall k :: 0 <= k < |bytes| ==> Offset(pc, k) in m && m[Offset(pc, k)] == bytes[k]
  }

  lemma {:induction false} HoldsReads(m: Memory, pc: u64, bytes: seq<u8>, n: nat)
    requires Holds(m, pc, bytes) && n <= |bytes|
    ensures ReadBytes(m, pc, n) == W.Some(bytes[..n])
  {
    assert Mapped(m, pc, n);
    assert ReadBytes(m, pc, n).value == bytes[..n];
  }

  /** The fetch at the start of a listing line. */
  lemma {:induction false} FetchCandidate(t: Table, m: Memory, pc: u64, uid: u64, bytes: seq<u8>)
    requires bytes != [] && Holds(m, pc, bytes) && FetchLength(bytes[0]) <= |bytes|
    ensures
      var n := FetchLength(bytes[0]);
      var c := Candidate(t, bytes, n);
      FetchOf(t, m, pc, uid) == if c.Some? then W.Some(Inst(uid, pc, Offset(pc, n), c.value)) else W.None
  {
    hide DecodedWord, Packed;
    HoldsReads(m, pc, bytes, 2);
    HoldsReads(m, pc, bytes, FetchLength(bytes[0]));
    assert m[Offset(pc, 0)] == bytes[0];
  }

  /** The line is a decoded instruction exactly when the executor fetches one there that lies inside these
      bytes, and then form and length are the same. */
  ghost predicate LineAgrees(t: Table, m: Memory, pc: u64, uid: u64, bytes: seq<u8>, line: Line)
    requires bytes != []
  {
    var fetched := FetchOf(t, m, pc, uid);
    && (line.status == CodecStatus.Ok <==> fetched.Some? && FetchLength(bytes[0]) <= |bytes|)
    && (line.status == CodecStatus.Ok ==>
          && fetched.value.data.form == line.form && fetched.value.nextPc == Offset(pc, line.sizeBytes)
          && line.lengthBits == 8 * FetchLength(bytes[0]))
  }

  /** No other length decodes, unless the announced one decodes too and is the better one. */
  ghost predicate NoRival(t: Table, bytes: seq<u8>)
    requires bytes != []
  {
    var f := FetchLength(bytes[0]);
    forall n: nat {:trigger Candidate(t, bytes, n)} :: n != f && Candidate(t, bytes, n).Some? ==>
      && Candidate(t, bytes, f).Some?
      && var mine, other := FixedBits(Candidate(t, bytes, f).value), FixedBits(Candidate(t, bytes, n).value);
         other < mine || (other == mine && f < n)
  }

  lemma {:induction false} BestUpTo(t: Table, bytes: seq<u8>, k: nat) returns (best: W.Option<nat>)
    requires k <= 5
    ensures best.None? ==> NoneBelow(t, bytes, 2 * k)
    ensures best.Some? ==> BestBelow(t, bytes, 2 * k, best.value)
  {
    hide Candidate;
    if k == 0 {
      best := W.None;
    } else {
      var n := 2 * (k - 1);
      best := BestUpTo(t, bytes, k - 1);
      if Candidate(t, bytes, n).None? {
        LimitStep(t, bytes, n);
      } else {
        LimitTaken(t, bytes, n, if best.Some? then best.value else 0);
        if best.None? || FixedBits(Candidate(t, bytes, n).value) > FixedBits(Candidate(t, bytes, best.value).value) {
          best := W.Some(n);
        }
      }
    }
  }

  /** Where some length decodes, one is best. */
  lemma {:induction false} BestExists(t: Table, bytes: seq<u8>, n: nat) returns (best: nat)
    requires Candidate(t, bytes, n).Some?
    ensures Best(t, bytes, best)
  {
    hide Candidate;
    var b := BestUpTo(t, bytes, 5);
    AllLengthsTried(t, bytes);
    best := b.value;
  }

  /** A listing line of bytes held in memory agrees with the executor's fetch if and only if the announced
      length has no rival there. */
  lemma {:induction false} LineAgreesExactly(t: Table, m: Memory, pc: u64, uid: u64, bytes: seq<u8>, line: Line)
    requires IsLine(t, bytes, pc, line) && Holds(m, pc, bytes)
    ensures LineAgrees(t, m, pc, uid, bytes, line) <==> NoRival(t, bytes)
  {
    hide Candidate, FetchOf, Packed, FetchLength;
    var f := FetchLength(bytes[0]);
    if f <= |bytes| {
      FetchCandidate(t, m, pc, uid, bytes);
    } else {
      TooShort(t, bytes, f);
    }
    if n: nat :| Best(t, bytes, n) && line == BestLine(t, bytes, pc, n) {
      DecodedStatus(t, bytes, n);
    } else if n: nat :| Candidate(t, bytes, n).Some? {
      var best := BestExists(t, bytes, n);
    }
  }

  lemma {:induction false} RivalTable() returns (t: Table, bytes: seq<u8>)
    ensures bytes == [1, 0] && Candidate(t, bytes, 2).Some? && FetchLength(bytes[0]) == 4
  {
    var form := Form("", "", "", 16, 0, Zero(), Zero(), 0, 0, 0, 0);
    t := Table([form], [], [], []);
    bytes := [1, 0];
    hide Packed, DecodedFields;
    var w := And(Packed(bytes[..2]), Mask(16));
    assert And(w, Zero()) == Zero();
    assert ConstraintsFor(t, form) == [];
    assert Winner(t, 16, w, 0);
    WinnerUnique(t, 16, w, 0);
    assert Candidate(t, bytes, 2).Some?;
  }

  /** An input: one two-byte form that matches every word, and a memory whose bytes announce four. The
      listing has a decoded line there, and the executor fetches nothing like it. */
  lemma {:induction false} RivalInput() returns (t: Table, bytes: seq<u8>, m: Memory, line: Line)
    ensures bytes != [] && !NoRival(t, bytes) && Holds(m, 0, bytes) && IsLine(t, bytes, 0, line)
    ensures line.status == CodecStatus.Ok && forall uid: u64 :: !LineAgrees(t, m, 0, uid, bytes, line)
  {
    hide Candidate, FetchOf, LineAgrees, FetchLength;
    t, bytes := RivalTable();
    m := map[0 := 1, 1 := 0];
    TooShort(t, bytes, 4);
    var best := BestExists(t, bytes, 2);
    DecodedStatus(t, bytes, best);
    line := BestLine(t, bytes, 0, best);
    forall uid: u64
      ensures !LineAgrees(t, m, 0, uid, bytes, line)
    {
      LineAgreesExactly(t, m, 0, uid, bytes, line);
    }
  }

  /** Tables whose first bytes announce lengths have no rivals anywhere. */
  lemma {:induction false} AnnouncedHasNoRival(t: Table, bytes: seq<u8>)
    requires LengthsAnnounced(t) && bytes != []
    ensures NoRival(t, bytes)
  {
    hide Candidate, LengthsAnnounced, FetchLength;
    forall n: nat | Candidate(t, bytes, n).Some?
      ensures n == FetchLength(bytes[0])
    {
      DecodedLengthAnnounced(t, bytes, n);
    }
  }

  /** On such a table listing and fetch agree at every line. */
  lemma {:induction false} LineAgreesWithFetch(t: Table, m: Memory, pc: u64, uid: u64, bytes: seq<u8>, line: Line)
    requires LengthsAnnounced(t) && IsLine(t, bytes, pc, line) && Holds(m, pc, bytes)
    ensures LineAgrees(t, m, pc, uid, bytes, line)
  {
    hide IsLine, LengthsAnnounced, Holds, LineAgrees, NoRival;
    LineSomewhere(t, bytes, pc, line);
    AnnouncedHasNoRival(t, bytes);
    LineAgreesExactly(t, m, pc, uid, bytes, line);
  }

  /** Each line of a listing is the line for the bytes from its own start on. */
  lemma {:induction false} LineInWalk(t: Table, bytes: seq<u8>, pc: u64, lines: seq<Line>, count: nat, i: nat)
    requires WalkOver(t, bytes, pc, lines, count) && i < |lines| && count <= |bytes|
    ensures SizeUpTo(lines, i) <= |bytes|
    ensures IsLine(t, bytes[SizeUpTo(lines, i)..], Offset(pc, SizeUpTo(lines, i)), lines[i])
    decreases |lines|
  {
    hide IsLine;
    if i == 0 {
      ModUnique(pc, 0, pc);
      assert bytes[0..] == bytes;
    } else {
      var n, off := lines[0].sizeBytes, SizeUpTo(lines[1..], i - 1);
      LineInWalk(t, bytes[n..], Offset(pc, n), lines[1..], count - n, i - 1);
      SizeFromSecond(lines, i);
      OffsetAdds(pc, n, off);
      assert bytes[n..][off..] == bytes[n + off..];
    }
  }

  /** The listing of a section held in memory and the executor agree at line i if and only if the length
      announced there has no rival in the bytes from the line's start on. */
  lemma {:induction false} ListingAgreesExactly(
    t: Table, m: Memory, bytes: seq<u8>, pc: u64, lines: seq<Line>, i: nat, uid: u64)
    requires WalkOver(t, bytes, pc, lines, |bytes|) && Holds(m, pc, bytes) && i < |lines|
    ensures SizeUpTo(lines, i) < |bytes| && lines[i].pc == Offset(pc, SizeUpTo(lines, i))
    ensures
      var rest := bytes[SizeUpTo(lines, i)..];
      LineAgrees(t, m, lines[i].pc, uid, rest, lines[i]) <==> NoRival(t, rest)
  {
    hide *;
    LineInWalk(t, bytes, pc, lines, |bytes|, i);
    var off := SizeUpTo(lines, i);
    var rest := bytes[off..];
    LineSize(t, rest, Offset(pc, off), lines[i]);
    LineSomewhere(t, rest, Offset(pc, off), lines[i]);
    HoldsFrom(m, pc, bytes, off);
    LineAgreesExactly(t, m, Offset(pc, off), uid, rest, lines[i]);
  }

  /** So on a table whose first bytes announce lengths they agree at every line of every listing. */
  lemma {:induction false} ListingAgreesWithFetch(
    t: Table, m: Memory, bytes: seq<u8>, pc: u64, lines: seq<Line>, i: nat, uid: u64)
    requires LengthsAnnounced(t) && WalkOver(t, bytes, pc, lines, |bytes|) && Holds(m, pc, bytes) && i < |lines|
    ensures SizeUpTo(lines, i) < |bytes| && lines[i].pc == Offset(pc, SizeUpTo(lines, i))
    ensures LineAgrees(t, m, lines[i].pc, uid, bytes[SizeUpTo(lines, i)..], lines[i])
  {
    hide *;
    ListingAgreesExactly(t, m, bytes, pc, lines, i, uid);
    AnnouncedHasNoRival(t, bytes[SizeUpTo(lines, i)..]);
  }

  lemma {:induction false} LineSomewhere(t: Table, bytes: seq<u8>, pc: u64, line: Line)
    requires IsLine(t, bytes, pc, line)
    ensures bytes != []
  {
  }

  lemma {:induction false} HoldsFrom(m: Memory, pc: u64, bytes: seq<u8>, off: nat)
    requires Holds(m, pc, bytes) && off <= |bytes|
    ensures Holds(m, Offset(pc, off), bytes[off..])
  {
    hide Offset;
    forall k | 0 <= k < |bytes| - off
      ensures Offset(Offset(pc, off), k) in m && m[Offset(Offset(pc, off), k)] == bytes[off..][k]
    {
      OffsetAdds(pc, off, k);
      assert bytes[off..][k] == bytes[off + k];
    }
  }
}
