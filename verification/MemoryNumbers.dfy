/** Bytes and words as numbers. */
module MemoryNumbers {
  import opened Words
  import opened CodecMeaning
  import opened ByteMemory

  function LittleEndian(bytes: seq<u8>): nat {
    if bytes == [] then 0 else bytes[0] + 256 * LittleEndian(bytes[1..])
  }

  lemma {:induction false} ToNatConcat(a: seq<bool>, b: seq<bool>)
    ensures ToNat(a + b) == ToNat(a) + Pow2(|a|) * ToNat(b)
  {
    if a == [] {
      assert a + b == b;
    } else {
      ToNatConcat(a[1..], b);
      assert (a + b)[1..] == a[1..] + b;
      assert Pow2(|a|) * ToNat(b) == 2 * (Pow2(|a| - 1) * ToNat(b)) by {
        MulAssociates(2, Pow2(|a| - 1), ToNat(b));
      }
    }
  }

  lemma {:induction false} PackedFront(bytes: seq<u8>)
    requires 1 <= |bytes| <= 8
    ensures Packed(bytes) == FromNat(bytes[0], 8) + Packed(bytes[1..])[..56]
    ensures forall i :: 56 <= i < 64 ==> !Packed(bytes[1..])[i]
  {
    hide FromNat;
  }

  lemma {:induction false} LowPart(s: seq<bool>, n: nat)
    requires n <= |s| && forall i :: n <= i < |s| ==> !s[i]
    ensures ToNat(s[..n]) == ToNat(s)
  {
    assert s == s[..n] + s[n..];
    ToNatConcat(s[..n], s[n..]);
    ClearHighBound(s[n..], 0);
  }

  /** A packed word is the little-endian number of its bytes. */
  lemma {:induction false} PackedNumber(bytes: seq<u8>)
    requires |bytes| <= 8
    ensures ToNat(Packed(bytes)) == LittleEndian(bytes)
  {
    hide Packed, FromNat, ToNat;
    if bytes == [] {
      PackedNothing();
      ClearHighBound(Zero(), 0);
    } else {
      var rest := Packed(bytes[1..]);
      PackedNumber(bytes[1..]);
      PackedFront(bytes);
      assert Pow2(8) == 256;
      ToFromNat(bytes[0], 8);
      ToNatConcat(FromNat(bytes[0], 8), rest[..56]);
      LowPart(rest, 56);
    }
  }

  lemma {:induction false} ShiftedNat(n: nat, len: nat, k: nat)
    requires k <= len
    ensures FromNat(n, len)[k..] == FromNat(n / Pow2(k), len - k)
  {
    if k > 0 {
      ShiftedNat(n / 2, len - 1, k - 1);
      assert FromNat(n, len)[k..] == FromNat(n / 2, len - 1)[k - 1..];
      HalfDiv(n, Pow2(k - 1));
    }
  }

  lemma {:induction false} HalfDiv(n: nat, p: nat)
    requires p >= 1
    ensures n / 2 / p == n / (2 * p)
  {
    var q, low := n / 2 / p, n / 2 % p;
    assert n / 2 == q * p + low;
    assert q * (2 * p) == 2 * (q * p);
    DivOf(n, q, 2 * p, 2 * low + n % 2);
  }

  lemma {:induction false} DivOf(v: nat, q: nat, d: nat, r: nat)
    requires r < d && v == q * d + r
    ensures v / d == q
  {
    ModOf(v, q, d, r);
    assert v == v / d * d + v % d;
    var e := q - v / d;
    MulSplit(q, v / d, d);
    if e >= 1 {
      MulGrows(e, d);
    } else if e <= -1 {
      MulGrows(-e, d);
    }
  }

  lemma {:induction false} ByteBitsOf(n: nat, k: nat)
    requires k < 8
    ensures
      var high := FromNat(n / Pow2(8 * k), 64 - 8 * k);
      var byte := And(Shr(FromNat(n, 64), k * 8), Mask(8));
      byte[..64 - 8 * k] == MaskedBits(high, 8) && forall i :: 64 - 8 * k <= i < 64 ==> !byte[i]
  {
    ShiftedNat(n, 64, 8 * k);
    var w: Word := FromNat(n, 64);
    hide FromNat;
    assert forall i :: 0 <= i < 64 - 8 * k ==> w[i + 8 * k] == w[8 * k..][i];
  }

  lemma {:induction false} LowByteOf(byte: Word, q: nat, len: nat)
    requires 8 <= len <= 64 && byte[..len] == MaskedBits(FromNat(q, len), 8)
    requires forall i :: len <= i < 64 ==> !byte[i]
    ensures ToNat(byte) == q % 256
  {
    assert Pow2(8) == 256;
    hide FromNat, ToNat, MaskedBits, Pow2;
    LowPart(byte, len);
    MaskedNat(q, len, 8);
  }

  /** Byte k of the word of a number. */
  lemma {:induction false} ByteOfNumber(n: nat, k: nat)
    requires k < 8
    ensures ByteOf(FromNat(n, 64), k) == n / Pow2(8 * k) % 256
  {
    ByteBitsOf(n, k);
    var w: Word := FromNat(n, 64);
    hide FromNat, ToNat, MaskedBits, Pow2, And, Shr, Mask;
    var q := n / Pow2(8 * k);
    LowByteOf(And(Shr(w, k * 8), Mask(8)), q, 64 - 8 * k);
  }

  lemma {:induction false} SignedNumber(n: nat, v: int)
    requires n < TWO_32 && v % TWO_32 == n && -TWO_32 / 2 <= v < TWO_32 / 2
    ensures v % TWO_64 == if n < TWO_32 / 2 then n else n + TWO_64 - TWO_32
  {
  }

  /** A 32-bit number read as signed, as a 64-bit register holds it. */
  lemma {:induction false} SignedWord(w: Word)
    requires forall i :: 32 <= i < 64 ==> !w[i]
    ensures ToNat(w) < TWO_32
    ensures SignExtend(w, 32) % TWO_64 == if ToNat(w) < 0x8000_0000 then ToNat(w) else ToNat(w) + TWO_64 - TWO_32
  {
    hide SignExtend, ToNat, And, FromInt64;
    Pow32();
    ClearHighBound(w, 32);
    TruncatedSignExtend(w, 32);
    CastLow(SignExtend(w, 32), 32);
    hide Pow2;
    SignedNumber(ToNat(w), SignExtend(w, 32));
  }
}
