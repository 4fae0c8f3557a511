/** The shared tile bank in terms of numbers: which PE a mask bit selects, what each status means, and
    what reads return. */
module SharedTileMeaning {
  import W = Wrappers
  import opened Words
  import opened SharedTiles
  import opened SharedTileTheorems

  // ---------- Masks ----------

  /** PE 0 is the highest of the four mask bits, PE 3 the lowest. */
  predicate Selects(mask: bv8, pe: nat) {
    pe < 4 && (mask as int) / Pow2(3 - pe) % 2 == 1
  }

  lemma {:induction false} LowBit(m: bv8)
    ensures (m & 1 != 0) <==> (m as int) % 2 == 1
  {
    assert m % 2 == m & 1;
    assert (m % 2) as int == (m as int) % 2;
  }

  lemma {:induction false} SecondBit(m: bv8)
    ensures (m & 2 != 0) <==> (m as int) / 2 % 2 == 1
  {
    assert (m & 2 != 0) <==> (m / 2) & 1 != 0;
    assert (m / 2) as int == (m as int) / 2;
    LowBit(m / 2);
  }

  lemma {:induction false} ThirdBit(m: bv8)
    ensures (m & 4 != 0) <==> (m as int) / 4 % 2 == 1
  {
    assert (m & 4 != 0) <==> (m / 4) & 1 != 0;
    assert (m / 4) as int == (m as int) / 4;
    LowBit(m / 4);
  }

  lemma {:induction false} FourthBit(m: bv8)
    ensures (m & 8 != 0) <==> (m as int) / 8 % 2 == 1
  {
    assert (m & 8 != 0) <==> (m / 8) & 1 != 0;
    assert (m / 8) as int == (m as int) / 8;
    LowBit(m / 8);
  }

  lemma {:induction false} SelectedBit(mask: bv8, pe: nat)
    requires pe < 4
    ensures Has(mask, pe) <==> Selects(mask, pe)
  {
    assert Pow2(0) == 1 && Pow2(1) == 2 && Pow2(2) == 4 && Pow2(3) == 8;
    if pe == 0 {
      FourthBit(mask);
    } else if pe == 1 {
      ThirdBit(mask);
    } else if pe == 2 {
      SecondBit(mask);
    } else {
      LowBit(mask);
    }
  }

  lemma {:induction false} SelectedBits(mask: bv8)
    ensures forall pe: nat :: pe < 4 ==> (Has(mask, pe) <==> Selects(mask, pe))
  {
    hide Has, Selects;
    forall pe: nat | pe < 4
      ensures Has(mask, pe) <==> Selects(mask, pe)
    {
      SelectedBit(mask, pe);
    }
  }

  function Selected(mask: bv8): set<nat> {
    set pe: nat | pe < 4 && Selects(mask, pe)
  }

  lemma {:induction false} HighBits(mask: bv8)
    ensures ValidMask(mask) <==> (mask as int) < 16
    ensures ValidMask(mask) ==> mask & 16 == 0 && mask & 32 == 0 && mask & 64 == 0 && mask & 128 == 0
  {
    assert ValidMask(mask) <==> mask < 16;
  }

  /** The popcount of a mask of PEs is the number of PEs it selects. */
  lemma {:induction false} PopCountIsCardinality(mask: bv8)
    requires (mask as int) < 16
    ensures PopCount(mask) == |Selected(mask)|
  {
    HighBits(mask);
    SelectedBits(mask);
    CountSelected(mask);
    assert PopCount(mask) == (if Has(mask, 3) then 1 else 0) + (if Has(mask, 2) then 1 else 0)
                           + (if Has(mask, 1) then 1 else 0) + (if Has(mask, 0) then 1 else 0);
  }

  function SelectedFrom(mask: bv8, k: nat): set<nat> {
    set pe: nat | k <= pe < 4 && Selects(mask, pe)
  }

  lemma {:induction false} SelectedNext(mask: bv8, k: nat)
    requires k < 4
    ensures |SelectedFrom(mask, k)| == |SelectedFrom(mask, k + 1)| + if Selects(mask, k) then 1 else 0
  {
    hide Selects;
    assert SelectedFrom(mask, k) == SelectedFrom(mask, k + 1) + if Selects(mask, k) then {k} else {};
  }

  lemma {:induction false} CountSelected(mask: bv8)
    ensures |Selected(mask)| == (if Selects(mask, 3) then 1 else 0) + (if Selects(mask, 2) then 1 else 0)
                              + (if Selects(mask, 1) then 1 else 0) + (if Selects(mask, 0) then 1 else 0)
  {
    assert Selected(mask) == SelectedFrom(mask, 0) && SelectedFrom(mask, 4) == {};
    hide Selected, SelectedFrom, Selects;
    SelectedNext(mask, 0);
    SelectedNext(mask, 1);
    SelectedNext(mask, 2);
    SelectedNext(mask, 3);
  }

  // ---------- Statuses ----------

  /** The checks of one selected lane, in numbers. */
  predicate Fits(d: Descriptor, capacity: nat) {
    && 1 <= d.rows && d.validRows <= d.rows && 1 <= d.cols && d.validCols <= d.cols
    && (d.rows * d.cols + 1) / 2 <= capacity
  }

  predicate Agreed(v: Version, pe: nat, capacity: nat, d: Descriptor)
    requires pe < 4
  {
    && (v.allocation == 0 || (v.perPeCapacity == capacity && v.dtype == d.dtype))
    && (Selects(v.initialized, pe) ==> v.lanes[pe].descriptor == d)
  }

  /** A descriptor is valid exactly when its shape is not empty, covers its valid part, and its elements,
      two to a byte, fit the capacity. */
  lemma {:induction false} DescriptorMeaning(d: Descriptor, capacity: u32)
    ensures DescriptorValid(d, capacity) <==> Fits(d, capacity)
  {
  }

  lemma {:induction false} DescriptorInputs(dtype: u32)
    ensures DescriptorValid(Descriptor(dtype, 16, 16, 16, 16), 128)
    ensures !DescriptorValid(Descriptor(dtype, 16, 16, 16, 17), 128)
    ensures !DescriptorValid(Descriptor(dtype, 0, 0, 1, 0), 128)
    ensures !DescriptorValid(Descriptor(dtype, 0, 0, 0, 1), 128)
    ensures !DescriptorValid(Descriptor(dtype, 1, 2, 1, 1), 128)
    ensures !DescriptorValid(Descriptor(dtype, 2, 1, 1, 1), 128)
  {
  }

  lemma {:induction false} LaneStatusExactly(v: Version, pe: nat, capacity: u32, d: Descriptor, payload: seq<u8>)
    requires pe < 4
    ensures
      var s := LaneStatus(v, pe, capacity, d, payload);
      && (s == InvalidDescriptor <==> !Fits(d, capacity))
      && (s == PayloadSizeMismatch <==> Fits(d, capacity) && |payload| != capacity)
      && (s == DescriptorMismatch <==> Fits(d, capacity) && |payload| == capacity && !Agreed(v, pe, capacity, d))
      && (s == Applied <==> Fits(d, capacity) && |payload| == capacity && Agreed(v, pe, capacity, d))
  {
    hide DescriptorValid, Fits, Has, Selects;
    DescriptorMeaning(d, capacity);
    SelectedBit(v.initialized, pe);
  }

  lemma {:induction false} ExpansionMeaning(mask: bv8, allocation: bv8)
    requires (mask as int) < 16
    ensures mask & !allocation != 0 <==> exists pe: nat :: pe < 4 && Selects(mask, pe) && !Selects(allocation, pe)
  {
    HighBits(mask);
    SelectedBits(mask);
    SelectedBits(allocation);
    hide Selects;
    ExpansionBits(mask, allocation);
    assert Has(mask, 0) && !Has(allocation, 0) ==> Selects(mask, 0);
    assert Has(mask, 1) && !Has(allocation, 1) ==> Selects(mask, 1);
    assert Has(mask, 2) && !Has(allocation, 2) ==> Selects(mask, 2);
    assert Has(mask, 3) && !Has(allocation, 3) ==> Selects(mask, 3);
  }

  lemma {:induction false} ExpansionBits(mask: bv8, allocation: bv8)
    requires ValidMask(mask)
    ensures mask & !allocation != 0 <==>
            (Has(mask, 0) && !Has(allocation, 0)) || (Has(mask, 1) && !Has(allocation, 1))
            || (Has(mask, 2) && !Has(allocation, 2)) || (Has(mask, 3) && !Has(allocation, 3))
  {
  }

  /** The checks before the lanes, in order. */
  predicate PastMask(w: Request) {
    w.id < 64 && 1 <= (w.mask as int) < 16
  }

  predicate PastSize(w: Request) {
    PastMask(w) && 1 <= w.size <= 12
  }

  predicate Expands(b: Bank, w: Request)
    requires w.id < 64
  {
    b[w.id].allocation != 0
    && exists pe: nat :: pe < 4 && Selects(w.mask, pe) && !Selects(b[w.id].allocation, pe)
  }

  /** The status of a write that never reaches the lane checks. */
  lemma {:induction false} EarlyStatusExactly(b: Bank, w: Request)
    ensures StatusOf(b, w) == InvalidRegister <==> w.id >= 64
    ensures StatusOf(b, w) == InvalidMask <==> w.id < 64 && (w.mask as int) >= 16
    ensures StatusOf(b, w) == Noop <==> w.id < 64 && (w.mask as int) == 0
    ensures StatusOf(b, w) == InvalidSize <==> PastMask(w) && (w.size < 1 || w.size > 12)
    ensures StatusOf(b, w) == AllocationExpansion <==> PastSize(w) && Expands(b, w)
  {
    hide Selects, CapacityBytes, ValidMask;
    HighBits(w.mask);
    if (w.mask as int) < 16 && w.id < 64 {
      ExpansionMeaning(w.mask, b[w.id].allocation);
      if CapacityBytes(w.size).Some? {
        PreflightRange(b[w.id], w.mask, CapacityBytes(w.size).value, w.ds, w.ps, 0);
      }
    }
  }

  lemma {:induction false} PreflightRange(v: Version, mask: bv8, capacity: u32, ds: Descriptors, ps: Payloads, pe: nat)
    requires pe <= 4
    ensures Preflight(v, mask, capacity, ds, ps, pe) in
            {Applied, InvalidDescriptor, PayloadSizeMismatch, DescriptorMismatch}
    decreases 4 - pe
  {
    hide Has, DescriptorValid;
    if pe < 4 {
      PreflightRange(v, mask, capacity, ds, ps, pe + 1);
    }
  }

  /** A lane the lane checks accept. */
  predicate LaneAccepted(v: Version, w: Request, pe: nat)
    requires pe < 4
  {
    var capacity := 64 * Pow2(w.size);
    Fits(w.ds[pe], capacity) && |w.ps[pe]| == capacity && Agreed(v, pe, capacity, w.ds[pe])
  }

  lemma {:induction false} CapacityMeaning(size: u8)
    requires 1 <= size <= 12
    ensures CapacityBytes(size) == W.Some(64 * Pow2(size))
  {
  }

  /** A write that reaches the lanes gets the status of the first selected lane, from PE 0 on, that is not
      accepted, and that status says which check failed; it is applied when all are accepted. */
  lemma {:induction false} LaneStatusDecides(b: Bank, w: Request, pe: nat)
    requires PastSize(w) && !Expands(b, w) && pe < 4 && Selects(w.mask, pe)
    requires !LaneAccepted(b[w.id], w, pe)
    requires forall j: nat :: j < pe && Selects(w.mask, j) ==> LaneAccepted(b[w.id], w, j)
    ensures
      var d, capacity := w.ds[pe], 64 * Pow2(w.size);
      StatusOf(b, w) == (if !Fits(d, capacity) then InvalidDescriptor
                         else if |w.ps[pe]| != capacity then PayloadSizeMismatch else DescriptorMismatch)
  {
    hide Selects, Fits, Agreed, Preflight, LaneStatus, CapacityBytes, ValidMask, Has;
    var v, capacity := b[w.id], CapacityBytes(w.size).value;
    CapacityMeaning(w.size);
    HighBits(w.mask);
    ExpansionMeaning(w.mask, v.allocation);
    SelectedBits(w.mask);
    forall j: nat | j <= pe && Selects(w.mask, j)
      ensures LaneStatus(v, j, capacity, w.ds[j], w.ps[j]) == Applied <==> LaneAccepted(v, w, j)
    {
      LaneStatusExactly(v, j, capacity, w.ds[j], w.ps[j]);
    }
    LaneStatusExactly(v, pe, capacity, w.ds[pe], w.ps[pe]);
    var k := LowestLaneDecides(v, w.mask, capacity, w.ds, w.ps, 0);
    assert k == pe;
  }

  /** When a write is applied: every selected lane is accepted. */
  lemma {:induction false} AppliedExactly(b: Bank, w: Request)
    ensures StatusOf(b, w) == Applied <==>
            && PastSize(w) && !Expands(b, w)
            && forall pe: nat :: pe < 4 && Selects(w.mask, pe) ==> LaneAccepted(b[w.id], w, pe)
  {
    hide Selects, Fits, Agreed, LaneStatus, CapacityBytes, ValidMask, Has, Preflight;
    EarlyStatusExactly(b, w);
    if PastSize(w) && !Expands(b, w) {
      var v, capacity := b[w.id], CapacityBytes(w.size).value;
      CapacityMeaning(w.size);
      HighBits(w.mask);
      ExpansionMeaning(w.mask, v.allocation);
      SelectedBits(w.mask);
      forall j: nat | j < 4
        ensures LaneStatus(v, j, capacity, w.ds[j], w.ps[j]) == Applied <==> LaneAccepted(v, w, j)
      {
        LaneStatusExactly(v, j, capacity, w.ds[j], w.ps[j]);
      }
      assert StatusOf(b, w) == Preflight(v, w.mask, capacity, w.ds, w.ps, 0);
    }
  }

  // ---------- What a write stores ----------

  /** The first applied write of a register allocates: its mask, its capacity in each of its PEs, and the
      dtype of the first PE it selects. */
  lemma {:induction false} AllocationMeaning(b: Bank, w: Request, first: nat)
    requires StatusOf(b, w) == Applied && b[w.id].allocation == 0
    requires first < 4 && Selects(w.mask, first) && forall j: nat :: j < first ==> !Selects(w.mask, j)
    ensures
      var v := WriteOf(b, w)[w.id];
      && v.allocation == w.mask && v.perPeCapacity == 64 * Pow2(w.size)
      && v.allocatedBytes == 64 * Pow2(w.size) * |Selected(w.mask)| && v.dtype == w.ds[first].dtype
  {
    hide Selects, Fits, Agreed, LaneStatus, CapacityBytes, ValidMask, Has, Preflight, PopCount, Join;
    AppliedExactly(b, w);
    CapacityMeaning(w.size);
    PopCountIsCardinality(w.mask);
    SelectedBits(w.mask);
  }

  /** One read after one write, in numbers. */
  lemma {:induction false} ReadAfterWrite(b: Bank, w: Request, id: u16, pe: u8)
    requires id < 64 && pe < 4
    ensures ReadOf(WriteOf(b, w), id, pe) ==
            if StatusOf(b, w) == Applied && w.id == id && Selects(w.mask, pe) then W.Some(Lane(w.ds[pe], w.ps[pe]))
            else ReadOf(b, id, pe)
  {
    hide Selects, Has, StatusOf, WriteOf;
    SelectedBit(w.mask, pe);
    ReadStep(b, w, id, pe);
  }

  lemma {:induction false} ReadEmpty(id: u16, pe: u8)
    ensures ReadOf(EmptyBank(), id, pe).None?
  {
    if pe < 4 {
      NoLane(pe);
    }
  }

  lemma {:induction false} ReadOutside(b: Bank, id: u16, pe: u8)
    requires id >= 64 || pe >= 4
    ensures ReadOf(b, id, pe).None?
  {
  }

  /** Operation k of the run is a write that is applied to this register and selects this PE. */
  predicate Hits(ops: seq<Op>, k: nat, id: nat, pe: nat)
    requires k < |ops|
  {
    ops[k].Write? && StatusOf(Run(EmptyBank(), ops[..k]), ops[k].w) == Applied && ops[k].w.id == id
    && Selects(ops[k].w.mask, pe)
  }

  /** A read returns what the hit after which there is neither a hit nor a reset has stored. */
  lemma {:induction false} ReadsLastHit(ops: seq<Op>, k: nat, id: u16, pe: u8)
    requires id < 64 && pe < 4 && k < |ops| && Hits(ops, k, id, pe)
    requires forall j :: k < j < |ops| ==> ops[j].Write? && !Hits(ops, j, id, pe)
    ensures ReadOf(Run(EmptyBank(), ops), id, pe) == W.Some(Lane(ops[k].w.ds[pe], ops[k].w.ps[pe]))
    decreases |ops|
  {
    hide Selects, StatusOf, WriteOf, ReadOf;
    var n := |ops| - 1;
    ReadAfterWrite(Run(EmptyBank(), ops[..n]), ops[n].w, id, pe);
    if k < n {
      HitsBefore(ops, n, id, pe);
      ReadsLastHit(ops[..n], k, id, pe);
    }
  }

  lemma {:induction false} HitsBefore(ops: seq<Op>, n: nat, id: nat, pe: nat)
    requires n <= |ops|
    ensures forall j :: 0 <= j < n ==> Hits(ops[..n], j, id, pe) == Hits(ops, j, id, pe)
  {
    hide Selects, StatusOf, Run;
    assert forall j :: 0 <= j < n ==> ops[..n][..j] == ops[..j];
  }

  predicate ResetAfter(ops: seq<Op>, j: int) {
    exists i :: j < i < |ops| && 0 <= i && ops[i].Reset?
  }

  lemma {:induction false} ResetAfterBefore(ops: seq<Op>)
    requires ops != [] && !ops[|ops| - 1].Reset?
    ensures forall j :: 0 <= j ==> (ResetAfter(ops[..|ops| - 1], j) <==> ResetAfter(ops, j))
  {
    assert forall i :: 0 <= i < |ops| - 1 ==> ops[..|ops| - 1][i] == ops[i];
  }

  /** A read returns nothing exactly when every hit is followed by a reset. */
  lemma {:induction false} ReadsNothingExactly(ops: seq<Op>, id: u16, pe: u8)
    requires id < 64 && pe < 4
    ensures ReadOf(Run(EmptyBank(), ops), id, pe).None? <==>
            forall j :: 0 <= j < |ops| && Hits(ops, j, id, pe) ==> ResetAfter(ops, j)
    decreases |ops|
  {
    hide Selects, StatusOf, WriteOf, ReadOf;
    if ops == [] {
      ReadEmpty(id, pe);
    } else {
      var n := |ops| - 1;
      HitsBefore(ops, n, id, pe);
      ReadsNothingExactly(ops[..n], id, pe);
      if ops[n].Reset? {
        ReadEmpty(id, pe);
      } else {
        ReadAfterWrite(Run(EmptyBank(), ops[..n]), ops[n].w, id, pe);
        if !Hits(ops, n, id, pe) {
          ResetAfterBefore(ops);
        }
      }
    }
  }

  /** The write with mask 8 to the last register of an empty bank: applied, and only PE 0 reads it. */
  lemma {:induction false} MaskEightInput(d: Descriptor, ps: Payloads)
    requires Fits(d, 128) && |ps[0]| == 128
    ensures
      var w := Request(63, 8, 1, SameDescriptor(d), ps);
      var b := WriteOf(EmptyBank(), w);
      && StatusOf(EmptyBank(), w) == Applied && ReadOf(b, 63, 0) == W.Some(Lane(d, ps[0]))
      && ReadOf(b, 63, 1).None? && ReadOf(b, 63, 2).None? && ReadOf(b, 63, 3).None?
  {
    var w := Request(63, 8, 1, SameDescriptor(d), ps);
    assert Pow2(0) == 1 && Pow2(1) == 2 && Pow2(2) == 4 && Pow2(3) == 8;
    assert Selects(8, 0) && !Selects(8, 1) && !Selects(8, 2) && !Selects(8, 3) && !Selects(0, 0);
    hide Selects, Fits, StatusOf, WriteOf, ReadOf;
    assert !Expands(EmptyBank(), w) && LaneAccepted(EmptyBank()[63], w, 0);
    AppliedExactly(EmptyBank(), w);
    forall pe: u8 | pe < 4
      ensures ReadOf(WriteOf(EmptyBank(), w), 63, pe) == if pe == 0 then W.Some(Lane(d, ps[0])) else W.None
    {
      ReadAfterWrite(EmptyBank(), w, 63, pe);
      ReadEmpty(63, pe);
    }
  }
}
