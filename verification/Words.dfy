/** 64-bit machine words seen bit by bit, least significant bit first, with the C++
    shift and mask operators the codec uses and their meaning as numbers. */
module Words {

  type Word = w: seq<bool> | |w| == 64 witness seq(64, (i: int) => false)

  const TWO_32: int := 0x1_0000_0000
  const TWO_64: int := 0x1_0000_0000_0000_0000
  const TWO_63: int := 0x8000_0000_0000_0000

  type u64 = n: nat | n < TWO_64
  type u8 = n: nat | n < 256
  type u32 = n: nat | n < 0x1_0000_0000
  type i64 = n: int | -TWO_63 <= n < TWO_63

  function Pow2(n: nat): (p: int)
    ensures p >= 1
  {
    if n == 0 then 1 else 2 * Pow2(n - 1)
  }

  function Zero(): Word {
    seq(64, (i: int) => false)
  }

  /** `BitMask`: the low `width` bits, all 64 when the width is larger. */
  function Mask(width: nat): Word {
    seq(64, (i: int) => i < width)
  }

  function Shr(w: Word, k: nat): Word {
    seq(64, (i: int) requires 0 <= i < 64 => i + k < 64 && w[i + k])
  }

  function Shl(w: Word, k: nat): Word {
    seq(64, (i: int) requires 0 <= i < 64 => i >= k && w[i - k])
  }

  function And(a: Word, b: Word): Word {
    seq(64, (i: int) requires 0 <= i < 64 => a[i] && b[i])
  }

  function Or(a: Word, b: Word): Word {
    seq(64, (i: int) requires 0 <= i < 64 => a[i] || b[i])
  }

  function Not(a: Word): Word {
    seq(64, (i: int) requires 0 <= i < 64 => !a[i])
  }

  /** The number a bit string stands for. */
  function ToNat(s: seq<bool>): nat {
    if s == [] then 0 else (if s[0] then 1 else 0) + 2 * ToNat(s[1..])
  }

  function FromNat(n: nat, len: nat): (s: seq<bool>)
    ensures |s| == len
  {
    if len == 0 then [] else [n % 2 == 1] + FromNat(n / 2, len - 1)
  }

  /** `static_cast<std::int64_t>` of a word. */
  function ToInt64(w: Word): int {
    if w[63] then ToNat(w) - TWO_64 else ToNat(w)
  }

  /** `static_cast<std::uint64_t>` of a signed value, as a word. */
  function FromInt64(v: int): Word {
    FromNat(v % TWO_64, 64)
  }

  /** `SignExtend`: branch for branch. */
  function SignExtend(value: Word, width: nat): int {
    if width == 0 then 0
    else if width >= 64 then ToInt64(value)
    else if !value[width - 1] then ToInt64(value)
    else ToInt64(Or(value, Not(Mask(width))))
  }

  // ---------- Numbers and bits determine each other ----------

  lemma {:induction false} ToNatBound(s: seq<bool>)
    ensures ToNat(s) < Pow2(|s|)
  {
    if s != [] {
      ToNatBound(s[1..]);
    }
  }

  lemma {:induction false} FromToNat(s: seq<bool>)
    ensures FromNat(ToNat(s), |s|) == s
  {
    if s != [] {
      FromToNat(s[1..]);
      assert ToNat(s) / 2 == ToNat(s[1..]);
    }
  }

  lemma {:induction false} ToFromNat(n: nat, len: nat)
    requires n < Pow2(len)
    ensures ToNat(FromNat(n, len)) == n
  {
    if len > 0 {
      ToFromNat(n / 2, len - 1);
      assert FromNat(n, len)[1..] == FromNat(n / 2, len - 1);
    }
  }

  lemma {:induction false} PowSplit(a: nat, b: nat)
    ensures Pow2(a + b) == Pow2(a) * Pow2(b)
  {
    if a > 0 {
      PowSplit(a - 1, b);
    }
  }

  lemma {:induction false} Pow64()
    ensures Pow2(63) == TWO_63 && Pow2(64) == TWO_64
  {
    assert Pow2(8) == 256;
    PowSplit(8, 8);
    PowSplit(16, 16);
    PowSplit(32, 32);
  }

  lemma {:induction false} Pow32()
    ensures Pow2(31) == 0x8000_0000 && Pow2(32) == TWO_32
  {
    assert Pow2(8) == 256;
    PowSplit(8, 8);
    PowSplit(16, 16);
  }

  lemma {:induction false} PowMonotone(a: nat, b: nat)
    requires a <= b
    ensures Pow2(a) <= Pow2(b)
  {
    PowSplit(a, b - a);
  }

  /** A number below 2^k has no bit at k or above. */
  lemma {:induction false} HighBitsClear(n: nat, len: nat, k: nat)
    requires n < Pow2(k)
    ensures forall i :: k <= i < len ==> !FromNat(n, len)[i]
  {
    if len > 0 && k > 0 {
      HighBitsClear(n / 2, len - 1, k - 1);
    } else if len > 0 {
      HighBitsClear(0, len - 1, 0);
    }
  }

  /** A bit string that is clear from k on stands for a number below 2^k. */
  lemma {:induction false} ClearHighBound(s: seq<bool>, k: nat)
    requires forall i :: k <= i < |s| ==> !s[i]
    ensures ToNat(s) < Pow2(k)
  {
    if s != [] {
      ClearHighBound(s[1..], if k > 0 then k - 1 else 0);
    }
  }

  lemma {:induction false} ComplementNat(a: seq<bool>, b: seq<bool>)
    requires |a| == |b| && forall i :: 0 <= i < |a| ==> a[i] == !b[i]
    ensures ToNat(a) + ToNat(b) + 1 == Pow2(|a|)
  {
    if a != [] {
      ComplementNat(a[1..], b[1..]);
    }
  }

  lemma {:induction false} TopBit(s: seq<bool>)
    requires |s| > 0
    ensures s[|s| - 1] <==> ToNat(s) >= Pow2(|s| - 1)
  {
    if |s| > 1 {
      TopBit(s[1..]);
    }
  }

  // ---------- The two integer casts are inverse ----------

  lemma {:induction false} ModUnique(v: int, k: int, r: int)
    requires 0 <= r < TWO_64 && v == k * TWO_64 + r
    ensures v % TWO_64 == r
  {
  }

  lemma {:induction false} CastRange(w: Word)
    ensures -TWO_63 <= ToInt64(w) < TWO_63
    ensures w[63] <==> ToInt64(w) < 0
  {
    Pow64();
    ToNatBound(w);
    TopBit(w);
  }

  lemma {:induction false} CastToAndBack(w: Word)
    ensures FromInt64(ToInt64(w)) == w
  {
    Pow64();
    ToNatBound(w);
    TopBit(w);
    FromToNat(w);
    ModUnique(ToInt64(w), if w[63] then -1 else 0, ToNat(w));
  }

  lemma {:induction false} CastFromAndBack(v: i64)
    ensures ToInt64(FromInt64(v)) == v
  {
    Pow64();
    var n := if v < 0 then v + TWO_64 else v;
    ModUnique(v, if v < 0 then -1 else 0, n);
    ToFromNat(n, 64);
    TopBit(FromInt64(v));
  }

  /** A value that fits in `width` signed bits has copies of its sign from bit width-1 up. */
  lemma {:induction false} SignBits(v: i64, width: nat)
    requires 1 <= width <= 64
    requires -Pow2(width - 1) <= v < Pow2(width - 1)
    ensures forall i :: width - 1 <= i < 64 ==> (FromInt64(v)[i] <==> v < 0)
  {
    if v >= 0 {
      ModUnique(v, 0, v);
      HighBitsClear(v, 64, width - 1);
    } else {
      NegativeBits(v);
      var low: Word := FromNat(-1 - v, 64);
      HighBitsClear(-1 - v, 64, width - 1);
      assert forall i :: width - 1 <= i < 64 ==> Not(low)[i];
    }
  }

  /** Two's complement: the bits of a negative value are those of -1 - v, all flipped. */
  lemma {:induction false} NegativeBits(v: i64)
    requires v < 0
    ensures FromInt64(v) == Not(FromNat(-1 - v, 64))
  {
    Pow64();
    var low: Word := FromNat(-1 - v, 64);
    ToFromNat(-1 - v, 64);
    ComplementNat(Not(low), low);
    ModUnique(v, -1, ToNat(Not(low)));
    FromToNat(Not(low));
  }

  /** Sign extension undoes keeping the low `width` bits of a value that fits. */
  lemma {:induction false} SignExtendOfTruncated(v: i64, width: nat)
    requires 1 <= width <= 64
    requires -Pow2(width - 1) <= v < Pow2(width - 1)
    ensures SignExtend(And(FromInt64(v), Mask(width)), width) == v
  {
    SignBits(v, width);
    CastFromAndBack(v);
    var x := FromInt64(v);
    var raw := And(x, Mask(width));
    if width == 64 || v >= 0 {
      assert raw == x;
    } else {
      assert Or(raw, Not(Mask(width))) == x;
    }
  }

  /** Sign extension of a word with nothing above `width` fits, and truncates back to it. */
  lemma {:induction false} TruncatedSignExtend(raw: Word, width: nat)
    requires 1 <= width <= 64
    requires forall i :: width <= i < 64 ==> !raw[i]
    ensures -Pow2(width - 1) <= SignExtend(raw, width) < Pow2(width - 1)
    ensures And(FromInt64(SignExtend(raw, width)), Mask(width)) == raw
  {
    Pow64();
    if width == 64 || !raw[width - 1] {
      CastToAndBack(raw);
      CastRange(raw);
      if width < 64 {
        ClearHighBound(raw, width - 1);
      }
      assert And(raw, Mask(width)) == raw;
    } else {
      var x := Or(raw, Not(Mask(width)));
      CastToAndBack(x);
      SignedOnes(x, width);
      assert And(x, Mask(width)) == raw;
    }
  }

  /** A word that is all ones from bit width-1 up is a small negative number. */
  lemma {:induction false} SignedOnes(x: Word, width: nat)
    requires 1 <= width <= 64 && forall i :: width - 1 <= i < 64 ==> x[i]
    ensures -Pow2(width - 1) <= ToInt64(x) < 0
  {
    Pow64();
    ToNatBound(x);
    ComplementNat(x, Not(x));
    ClearHighBound(Not(x), width - 1);
  }

  /** An unsigned value that fits in `width` bits is its own truncation. */
  lemma {:induction false} UnsignedTruncated(v: i64, width: nat)
    requires 0 <= v < Pow2(width)
    ensures And(FromInt64(v), Mask(width)) == FromInt64(v)
    ensures ToInt64(FromInt64(v)) == v
  {
    ModUnique(v, 0, v);
    HighBitsClear(v, 64, width);
    CastFromAndBack(v);
    assert And(FromInt64(v), Mask(width)) == FromInt64(v);
  }

  /** A word with nothing above width <= 63 casts to a non-negative value that fits. */
  lemma {:induction false} TruncatedUnsigned(raw: Word, width: nat)
    requires width <= 63
    requires forall i :: width <= i < 64 ==> !raw[i]
    ensures 0 <= ToInt64(raw) < Pow2(width)
    ensures And(FromInt64(ToInt64(raw)), Mask(width)) == raw
  {
    ClearHighBound(raw, width);
    CastToAndBack(raw);
    assert And(raw, Mask(width)) == raw;
  }

  /** The largest value under a mask. */
  lemma {:induction false} MaskNat(width: nat)
    requires width <= 64
    ensures ToNat(Mask(width)) == Pow2(width) - 1
  {
    MaskNatPrefix(64, width);
  }

  lemma {:induction false} MaskNatPrefix(len: nat, width: nat)
    requires width <= len
    ensures ToNat(seq(len, (i: int) => i < width)) == Pow2(width) - 1
  {
    var s := seq(len, (i: int) => i < width);
    if width == 0 {
      ClearHighBound(s, 0);
    } else {
      MaskNatPrefix(len - 1, width - 1);
      assert s[1..] == seq(len - 1, (i: int) => i < width - 1);
    }
  }
}
