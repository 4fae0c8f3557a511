/** Byte memory over the wrapping 64-bit address space, little-endian words in it, and what the
    byte-by-byte store, fill and copy loops leave behind. */
module ByteMemory {
  import opened Words
  import W = Wrappers

  type Memory = map<u64, u8>

  function Offset(a: u64, i: nat): u64 {
    (a + i) % TWO_64
  }

  /** `Read8(...).value_or(0)`. */
  function Get(m: Memory, a: u64): u8 {
    if a in m then m[a] else 0
  }

  // ---------- Little-endian words ----------

  /** The word whose bit 8k+j is bit j of byte k. */
  function Packed(bytes: seq<u8>): Word {
    seq(64, (i: int) requires 0 <= i < 64 => i / 8 < |bytes| && FromNat(bytes[i / 8], 8)[i % 8])
  }

  /** What the packing loops do with one more byte: `value |= byte << (idx * 8)`. */
  function OrByte(value: Word, byte: u8, idx: nat): Word {
    Or(value, Shl(FromNat(byte, 64), idx * 8))
  }

  function ByteOf(w: Word, idx: nat): (b: u8)
  {
    var byte := And(Shr(w, idx * 8), Mask(8));
    ClearHighBound(byte, 8);
    assert Pow2(8) == 256;
    ToNat(byte)
  }

  function BytesOf(w: Word, n: nat): (bytes: seq<u8>)
    ensures |bytes| == n && forall k :: 0 <= k < n ==> bytes[k] == ByteOf(w, k)
  {
    seq(n, (k: int) requires 0 <= k < n => ByteOf(w, k))
  }

  /** The low bits of a number do not depend on how many bits are written down. */
  lemma {:induction false} FromNatPrefix(n: nat, short: nat, long: nat)
    requires short <= long
    ensures FromNat(n, long)[..short] == FromNat(n, short)
  {
    if short > 0 {
      FromNatPrefix(n / 2, short - 1, long - 1);
    }
  }

  lemma {:induction false} ByteBits(byte: u8, j: nat)
    requires j < 64
    ensures FromNat(byte, 64)[j] == (j < 8 && FromNat(byte, 8)[j])
  {
    assert Pow2(8) == 256;
    HighBitsClear(byte, 64, 8);
    FromNatPrefix(byte, 8, 64);
    if j < 8 {
      assert FromNat(byte, 64)[..8][j] == FromNat(byte, 8)[j];
    }
  }

  /** The shift-and-or loop builds the word that is read byte by byte. */
  lemma {:induction false} OrByteGrows(bytes: seq<u8>, byte: u8)
    requires |bytes| < 8
    ensures OrByte(Packed(bytes), byte, |bytes|) == Packed(bytes + [byte])
  {
    var k := |bytes|;
    forall i | 0 <= i < 64
      ensures OrByte(Packed(bytes), byte, k)[i] == Packed(bytes + [byte])[i]
    {
      if i >= 8 * k {
        ByteBits(byte, i - 8 * k);
      }
    }
  }

  lemma {:induction false} PackedNothing()
    ensures Packed([]) == Zero()
  {
  }

  /** Taking a word apart into n bytes and packing them again keeps its low 8n bits. */
  lemma {:induction false} PackedBytesOf(w: Word, n: nat)
    requires n <= 8
    ensures Packed(BytesOf(w, n)) == And(w, Mask(8 * n))
  {
    forall i | 0 <= i < 64
      ensures Packed(BytesOf(w, n))[i] == And(w, Mask(8 * n))[i]
    {
      if i < 8 * n {
        ByteOfBit(w, i / 8, i % 8);
      }
    }
  }

  lemma {:induction false} ByteOfBit(w: Word, k: nat, j: nat)
    requires k < 8 && j < 8
    ensures FromNat(ByteOf(w, k), 8)[j] == w[8 * k + j]
  {
    var byte := And(Shr(w, k * 8), Mask(8));
    FromToNat(byte);
    FromNatPrefix(ToNat(byte), 8, 64);
    assert FromNat(ToNat(byte), 64)[..8][j] == FromNat(ByteOf(w, k), 8)[j];
  }

  // ---------- Reading ----------

  predicate Mapped(m: Memory, a: u64, n: nat) {
    forall k :: 0 <= k < n ==> Offset(a, k) in m
  }

  function ReadBytes(m: Memory, a: u64, n: nat): (r: W.Option<seq<u8>>)
    ensures r.Some? <==> Mapped(m, a, n)
    ensures r.Some? ==> |r.value| == n && forall k :: 0 <= k < n ==> r.value[k] == m[Offset(a, k)]
  {
    if Mapped(m, a, n) then W.Some(seq(n, (k: int) requires 0 <= k < n => m[Offset(a, k)])) else W.None
  }

  /** A little-endian word of n bytes, when all of them are mapped. */
  function ReadWord(m: Memory, a: u64, n: nat): W.Option<Word> {
    var bytes := ReadBytes(m, a, n);
    if bytes.None? then W.None else W.Some(Packed(bytes.value))
  }

  /** The first byte of a word read from memory is its low byte. */
  lemma {:induction false} LowByte(m: Memory, a: u64)
    requires Mapped(m, a, 2)
    ensures a in m && ByteOf(ReadWord(m, a, 2).value, 0) == m[a]
  {
    assert Offset(a, 0) == a && Offset(a, 1) in m;
    var bytes := ReadBytes(m, a, 2).value;
    var low := And(Shr(Packed(bytes), 0), Mask(8));
    forall i | 0 <= i < 64
      ensures low[i] == FromNat(m[a], 64)[i]
    {
      ByteBits(m[a], i);
    }
    assert low == FromNat(m[a], 64);
    Pow64();
    ToFromNat(m[a], 64);
  }

  // ---------- Storing ----------

  function StoreBytes(m: Memory, a: u64, bytes: seq<u8>): Memory {
    if bytes == [] then m
    else
      var n := |bytes| - 1;
      StoreBytes(m, a, bytes[..n])[Offset(a, n) := bytes[n]]
  }

  /** An address among the n bytes from a on, wrapping around. */
  predicate Within(x: u64, a: u64, n: nat) {
    (x - a) % TWO_64 < n
  }

  /** Distinct offsets below 2^64 are distinct addresses. */
  lemma {:induction false} OffsetDistance(a: u64, i: nat)
    requires i < TWO_64
    ensures (Offset(a, i) - a) % TWO_64 == i
  {
    var x := Offset(a, i);
    if a + i < TWO_64 {
      ModUnique(a + i, 0, a + i);
      ModUnique(x - a, 0, i);
    } else {
      ModUnique(a + i, 1, a + i - TWO_64);
      ModUnique(x - a, -1, i);
    }
  }

  lemma {:induction false} DistanceOffset(x: u64, a: u64)
    ensures Offset(a, (x - a) % TWO_64) == x
  {
    if x >= a {
      ModUnique(x - a, 0, x - a);
      ModUnique(x, 0, x);
    } else {
      ModUnique(x - a, -1, x - a + TWO_64);
      ModUnique(x + TWO_64, 1, x);
    }
  }

  /** Storing puts each byte at its own address and touches no other. */
  lemma {:induction false} StoredByte(m: Memory, a: u64, bytes: seq<u8>, x: u64)
    requires |bytes| <= TWO_64
    ensures
      var m' := StoreBytes(m, a, bytes);
      var i := (x - a) % TWO_64;
      if Within(x, a, |bytes|) then x in m' && m'[x] == bytes[i]
      else (x in m' <==> x in m) && (x in m ==> m'[x] == m[x])
  {
    if bytes != [] {
      var n := |bytes| - 1;
      StoredByte(m, a, bytes[..n], x);
      OffsetDistance(a, n);
      DistanceOffset(x, a);
    }
  }

  /** Reading back the bytes just stored. */
  lemma {:induction false} ReadStored(m: Memory, a: u64, bytes: seq<u8>)
    requires |bytes| <= TWO_64
    ensures ReadBytes(StoreBytes(m, a, bytes), a, |bytes|) == W.Some(bytes)
  {
    var m' := StoreBytes(m, a, bytes);
    forall k | 0 <= k < |bytes|
      ensures Offset(a, k) in m' && m'[Offset(a, k)] == bytes[k]
    {
      OffsetDistance(a, k);
      StoredByte(m, a, bytes, Offset(a, k));
    }
    assert ReadBytes(m', a, |bytes|).value == bytes;
  }

  // ---------- Filling and copying ----------

  function Copies(value: u8, n: nat): (bytes: seq<u8>)
    ensures |bytes| == n && forall k :: 0 <= k < n ==> bytes[k] == value
  {
    seq(n, (k: int) => value)
  }

  /** The first n turns of the MCOPY loop. */
  function CopyUpTo(m: Memory, dst: u64, src: u64, n: nat): Memory {
    if n == 0 then m
    else
      var m' := CopyUpTo(m, dst, src, n - 1);
      m'[Offset(dst, n - 1) := Get(m', Offset(src, n - 1))]
  }

  /** Where the byte that ends up at dst + i came from: the loop repeats the d bytes in front of dst
      when the destination starts d bytes after the source. */
  function Origin(dst: u64, src: u64, i: nat): u64 {
    var d := (dst - src) % TWO_64;
    if d == 0 then Offset(src, i) else Offset(src, i % d)
  }

  /** The closed form of MCOPY, with every overlap and wrap-around: the byte at dst + i is the old byte
      at its origin (0 where unmapped) and every other address is untouched. */
  lemma {:induction false} CopyClosedForm(m: Memory, dst: u64, src: u64, n: nat, x: u64)
    requires n <= TWO_64
    ensures
      var m' := CopyUpTo(m, dst, src, n);
      var i := (x - dst) % TWO_64;
      if Within(x, dst, n) then x in m' && m'[x] == Get(m, Origin(dst, src, i))
      else (x in m' <==> x in m) && (x in m ==> m'[x] == m[x])
    decreases n, 0
  {
    if n > 0 {
      CopyClosedForm(m, dst, src, n - 1, x);
      OffsetDistance(dst, n - 1);
      DistanceOffset(x, dst);
      if x == Offset(dst, n - 1) {
        CopiedFrom(m, dst, src, n - 1);
      }
    }
  }

  /** What turn n of the loop reads. */
  lemma {:induction false} CopiedFrom(m: Memory, dst: u64, src: u64, n: nat)
    requires n < TWO_64
    ensures Get(CopyUpTo(m, dst, src, n), Offset(src, n)) == Get(m, Origin(dst, src, n))
    decreases n, 1
  {
    var from := Offset(src, n);
    CopyClosedForm(m, dst, src, n, from);
    ReadDistance(dst, src, n);
    var d := (dst - src) % TWO_64;
    if 0 < d <= n {
      RepeatsEvery(n, d);
    } else if 0 < d {
      SmallMod(n, d);
    }
  }

  /** How far the address read in turn n lies behind the destination. */
  lemma {:induction false} ReadDistance(dst: u64, src: u64, n: nat)
    requires n < TWO_64
    ensures
      var d := (dst - src) % TWO_64;
      (Offset(src, n) - dst) % TWO_64 == if d <= n then n - d else n - d + TWO_64
  {
    var d := (dst - src) % TWO_64;
    var from := Offset(src, n);
    var j := if dst >= src then 0 else -1;
    ModUnique(dst - src, j, dst - src - j * TWO_64);
    assert dst == src + d + j * TWO_64;
    var k := if src + n < TWO_64 then 0 else 1;
    ModUnique(src + n, k, src + n - k * TWO_64);
    assert from == src + n - k * TWO_64;
    if d <= n {
      ModUnique(from - dst, -k - j, n - d);
    } else {
      ModUnique(from - dst, -k - j - 1, n - d + TWO_64);
    }
  }

  lemma {:induction false} RepeatsEvery(n: nat, d: nat)
    requires 0 < d <= n
    ensures (n - d) % d == n % d
  {
    var q, r := n / d, n % d;
    assert n == q * d + r;
    assert n - d == (q - 1) * d + r by {
      assert (q - 1) * d == q * d - d;
    }
    ModOf(n - d, q - 1, d, r);
  }

  lemma {:induction false} ModOf(v: int, q: int, d: nat, r: nat)
    requires 0 <= r < d && v == q * d + r
    ensures v % d == r
  {
    var e := q - v / d;
    MulSplit(q, v / d, d);
    if e >= 1 {
      MulGrows(e, d);
    } else if e <= -1 {
      MulGrows(-e, d);
    }
  }

  lemma {:induction false} MulSplit(a: int, b: int, d: nat)
    ensures (a - b) * d == a * d - b * d
    ensures (b - a) * d == b * d - a * d
  {
  }

  lemma {:induction false} MulGrows(e: int, d: nat)
    requires e >= 1
    ensures e * d >= d
  {
    assert (e - 1) * d >= 0;
  }

  lemma {:induction false} SmallMod(n: nat, d: nat)
    requires n < d
    ensures n % d == n
  {
  }
}
