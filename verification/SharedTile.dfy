/** The shared tile bank: 64 registers of four lanes, written atomically after every selected lane
    has been checked. */
module SharedTiles {
  import W = Wrappers
  import opened Words

  type u16 = n: nat | n < 0x1_0000

  datatype Descriptor = Descriptor(dtype: u32, validCols: u16, validRows: u16, cols: u16, rows: u16)

  datatype Lane = Lane(descriptor: Descriptor, data: seq<u8>)

  type Lanes = s: seq<Lane> | |s| == 4 witness NoLanes()
  type Descriptors = s: seq<Descriptor> | |s| == 4 witness SameDescriptor(Descriptor(0, 0, 0, 0, 0))
  type Payloads = s: seq<seq<u8>> | |s| == 4 witness NoPayloads()

  datatype Version = Version(
    lanes: Lanes, perPeCapacity: u32, allocatedBytes: u32, dtype: u32, allocation: bv8, initialized: bv8)

  type Bank = s: seq<Version> | |s| == 64 witness EmptyBank()

  datatype Status =
    | Applied | Noop | InvalidRegister | InvalidMask | InvalidSize | InvalidDescriptor
    | PayloadSizeMismatch | AllocationExpansion | DescriptorMismatch

  function NoLanes(): (r: seq<Lane>)
    ensures |r| == 4
  {
    seq(4, (k: int) => Lane(Descriptor(0, 0, 0, 0, 0), []))
  }

  function NoPayloads(): (r: seq<seq<u8>>)
    ensures |r| == 4
  {
    seq(4, (k: int) => [])
  }

  /** `descriptors.fill(descriptor)`. */
  function SameDescriptor(d: Descriptor): (r: seq<Descriptor>)
    ensures |r| == 4 && forall k :: 0 <= k < 4 ==> r[k] == d
  {
    seq(4, (k: int) => d)
  }

  function EmptyVersion(): Version {
    Version(NoLanes(), 0, 0, 0, 0, 0)
  }

  function EmptyBank(): (r: seq<Version>)
    ensures |r| == 64 && forall k :: 0 <= k < 64 ==> r[k] == EmptyVersion()
  {
    seq(64, (k: int) => EmptyVersion())
  }

  // ---------- Masks ----------

  /** `1 << (3 - pe)`. */
  function PeMaskBit(pe: nat): bv8 {
    if pe == 0 then 8 else if pe == 1 then 4 else if pe == 2 then 2 else 1
  }

  predicate Has(mask: bv8, pe: nat) {
    mask & PeMaskBit(pe) != 0
  }

  predicate ValidMask(mask: bv8) {
    mask & 0xF0 == 0
  }

  function Join(a: bv8, b: bv8): bv8 {
    a | b
  }

  /** `std::popcount`. */
  function PopCount(mask: bv8): (n: nat)
    ensures n <= 8
  {
    (if mask & 1 != 0 then 1 else 0) + (if mask & 2 != 0 then 1 else 0) +
    (if mask & 4 != 0 then 1 else 0) + (if mask & 8 != 0 then 1 else 0) +
    (if mask & 16 != 0 then 1 else 0) + (if mask & 32 != 0 then 1 else 0) +
    (if mask & 64 != 0 then 1 else 0) + (if mask & 128 != 0 then 1 else 0)
  }

  // ---------- Checks ----------

  function CapacityBytes(size: u8): (r: W.Option<u32>)
    ensures r.Some? <==> 1 <= size <= 12
    ensures r.Some? ==> 128 <= r.value <= 0x4_0000
  {
    if size < 1 || size > 12 then W.None
    else
      Capacities(size - 1);
      W.Some(128 * Pow2(size - 1))
  }

  /** 128 bytes for the first code, twice as much for each next one, 256 KiB for the last. */
  lemma {:induction false} CapacityDoubles(size: u8)
    requires 1 <= size < 12
    ensures CapacityBytes(1) == W.Some(128) && CapacityBytes(12) == W.Some(0x4_0000)
    ensures CapacityBytes(size + 1).value == 2 * CapacityBytes(size).value
  {
    assert Pow2(11) == 0x800;
  }

  lemma {:induction false} Capacities(k: nat)
    requires k < 12
    ensures 1 <= Pow2(k) <= 0x800
  {
    PowMonotone(k, 11);
    assert Pow2(11) == 0x800;
  }

  predicate DescriptorValid(d: Descriptor, capacity: u32) {
    && d.rows != 0 && d.cols != 0 && d.validRows <= d.rows && d.validCols <= d.cols
    && d.rows * d.cols <= capacity * 2
  }

  /** What the preflight says of one selected lane, in the order the checks are made. */
  function LaneStatus(v: Version, pe: nat, capacity: u32, d: Descriptor, payload: seq<u8>): Status
    requires pe < 4
  {
    if !DescriptorValid(d, capacity) then InvalidDescriptor
    else if |payload| != capacity then PayloadSizeMismatch
    else if v.allocation != 0 && (v.perPeCapacity != capacity || v.dtype != d.dtype) then DescriptorMismatch
    else if Has(v.initialized, pe) && v.lanes[pe].descriptor != d then DescriptorMismatch
    else Applied
  }

  /** The first selected lane from `pe` on that fails decides. */
  function Preflight(v: Version, mask: bv8, capacity: u32, ds: Descriptors, ps: Payloads, pe: nat): (s: Status)
    requires pe <= 4
    ensures s == Applied <==>
            forall k :: pe <= k < 4 && Has(mask, k) ==> LaneStatus(v, k, capacity, ds[k], ps[k]) == Applied
    decreases 4 - pe
  {
    if pe == 4 then Applied
    else
      var s := if Has(mask, pe) then LaneStatus(v, pe, capacity, ds[pe], ps[pe]) else Applied;
      if s != Applied then s else Preflight(v, mask, capacity, ds, ps, pe + 1)
  }

  function WriteStatus(v: Version, mask: bv8, size: u8, ds: Descriptors, ps: Payloads): Status {
    if !ValidMask(mask) then InvalidMask
    else if mask == 0 then Noop
    else if CapacityBytes(size).None? then InvalidSize
    else if v.allocation != 0 && mask & !v.allocation != 0 then AllocationExpansion
    else Preflight(v, mask, CapacityBytes(size).value, ds, ps, 0)
  }

  // ---------- Applying ----------

  function FirstDtype(mask: bv8, ds: Descriptors): u32 {
    if Has(mask, 0) then ds[0].dtype
    else if Has(mask, 1) then ds[1].dtype
    else if Has(mask, 2) then ds[2].dtype
    else ds[3].dtype
  }

  function WrittenLanes(lanes: Lanes, mask: bv8, ds: Descriptors, ps: Payloads): (r: Lanes)
    ensures forall k :: 0 <= k < 4 ==> r[k] == if Has(mask, k) then Lane(ds[k], ps[k]) else lanes[k]
  {
    seq(4, (k: int) requires 0 <= k < 4 => if Has(mask, k) then Lane(ds[k], ps[k]) else lanes[k])
  }

  function WithLane(v: Version, pe: nat, d: Descriptor, payload: seq<u8>): Version
    requires pe < 4
  {
    v.(lanes := v.lanes[pe := Lane(d, payload)], initialized := Join(v.initialized, PeMaskBit(pe)))
  }

  /** A version with the lanes of this mask filled. */
  function Filled(v: Version, mask: bv8, ds: Descriptors, ps: Payloads): Version {
    v.(lanes := WrittenLanes(v.lanes, mask, ds, ps), initialized := Join(v.initialized, mask))
  }

  function AllocateOf(v: Version, mask: bv8, capacity: u32, ds: Descriptors): Version
    requires capacity <= 0x4_0000
  {
    if v.allocation != 0 then v
    else v.(allocation := mask, perPeCapacity := capacity, allocatedBytes := capacity * PopCount(mask),
            dtype := FirstDtype(mask, ds))
  }

  function ApplyOf(v: Version, mask: bv8, capacity: u32, ds: Descriptors, ps: Payloads): Version
    requires capacity <= 0x4_0000
  {
    Filled(AllocateOf(v, mask, capacity, ds), mask, ds, ps)
  }

  datatype Request = Request(id: u16, mask: bv8, size: u8, ds: Descriptors, ps: Payloads)

  function StatusOf(b: Bank, w: Request): (s: Status)
    ensures s == Applied ==> w.id < 64 && CapacityBytes(w.size).Some?
  {
    if w.id >= 64 then InvalidRegister else WriteStatus(b[w.id], w.mask, w.size, w.ds, w.ps)
  }

  function WriteOf(b: Bank, w: Request): Bank {
    if StatusOf(b, w) != Applied then b
    else b[w.id := ApplyOf(b[w.id], w.mask, CapacityBytes(w.size).value, w.ds, w.ps)]
  }

  function ReadOf(b: Bank, id: u16, pe: u8): W.Option<Lane> {
    if id >= 64 || pe >= 4 || !Has(b[id].initialized, pe) then W.None else W.Some(b[id].lanes[pe])
  }

  class SharedTileBank {
    const versions: array<Version>

    ghost predicate Valid() {
      versions.Length == 64
    }

    ghost function Contents(): Bank
      requires Valid()
      reads versions
    {
      versions[..]
    }

    constructor ()
      ensures Valid() && fresh(versions) && Contents() == EmptyBank()
    {
      versions := new Version[64](k => EmptyVersion());
    }

    method WriteUniform(id: u16, mask: bv8, size: u8, d: Descriptor, ps: Payloads) returns (status: Status)
      requires Valid()
      modifies versions
      ensures
        var w := Request(id, mask, size, SameDescriptor(d), ps);
        status == StatusOf(old(Contents()), w) && Contents() == WriteOf(old(Contents()), w)
    {
      status := Write(id, mask, size, SameDescriptor(d), ps);
    }

    method Write(id: u16, mask: bv8, size: u8, ds: Descriptors, ps: Payloads) returns (status: Status)
      requires Valid()
      modifies versions
      ensures
        var w := Request(id, mask, size, ds, ps);
        status == StatusOf(old(Contents()), w) && Contents() == WriteOf(old(Contents()), w)
    {
      if id >= 64 {
        return InvalidRegister;
      }
      if mask & 0xF0 != 0 {
        return InvalidMask;
      }
      if mask == 0 {
        return Noop;
      }
      var capacity := CapacityBytes(size);
      if capacity.None? {
        return InvalidSize;
      }
      var v := versions[id];
      if v.allocation != 0 && mask & !v.allocation != 0 {
        return AllocationExpansion;
      }
      status := CheckLanes(v, mask, capacity.value, ds, ps);
      if status != Applied {
        return;
      }
      if v.allocation == 0 {
        versions[id] := AllocateOf(v, mask, capacity.value, ds);
      }
      FillLanes(id, mask, ds, ps);
      assert versions[..] == old(versions[..])[id := versions[id]];
    }

    method CheckLanes(v: Version, mask: bv8, capacity: u32, ds: Descriptors, ps: Payloads) returns (status: Status)
      ensures status == Preflight(v, mask, capacity, ds, ps, 0)
    {
      for pe := 0 to 4
        invariant Preflight(v, mask, capacity, ds, ps, 0) == Preflight(v, mask, capacity, ds, ps, pe)
      {
        if mask & PeMaskBit(pe) == 0 {
          continue;
        }
        if !DescriptorValid(ds[pe], capacity) {
          return InvalidDescriptor;
        }
        if |ps[pe]| != capacity {
          return PayloadSizeMismatch;
        }
        if v.allocation != 0 && (v.perPeCapacity != capacity || v.dtype != ds[pe].dtype) {
          return DescriptorMismatch;
        }
        if v.initialized & PeMaskBit(pe) != 0 && v.lanes[pe].descriptor != ds[pe] {
          return DescriptorMismatch;
        }
      }
      return Applied;
    }

    method FillLanes(id: nat, mask: bv8, ds: Descriptors, ps: Payloads)
      requires Valid() && id < 64 && ValidMask(mask)
      modifies versions
      ensures versions[id] == Filled(old(versions[id]), mask, ds, ps)
      ensures forall k :: 0 <= k < 64 && k != id ==> versions[k] == old(versions[k])
    {
      hide Has, Join, ValidMask, Filled, WithLane, PeMaskBit;
      ghost var v, part := versions[id], 0;
      FillNothing(v, mask, ds, ps);
      for pe := 0 to 4
        invariant PartBelow(part, mask, pe) && versions[id] == Filled(v, part, ds, ps)
        invariant forall k :: 0 <= k < 64 && k != id ==> versions[k] == old(versions[k])
      {
        FillStep(v, mask, part, pe, ds, ps);
        PartNext(part, mask, pe);
        part := NextPart(part, mask, pe);
        if !Has(mask, pe) {
          continue;
        }
        FillLane(id, pe, ds[pe], ps[pe]);
      }
      WholePart(part, mask);
    }

    method FillLane(id: nat, pe: nat, d: Descriptor, payload: seq<u8>)
      requires Valid() && id < 64 && pe < 4
      modifies versions
      ensures versions[id] == WithLane(old(versions[id]), pe, d, payload)
      ensures forall k :: 0 <= k < 64 && k != id ==> versions[k] == old(versions[k])
    {
      var v := versions[id];
      versions[id] := v.(lanes := v.lanes[pe := Lane(d, payload)], initialized := v.initialized | PeMaskBit(pe));
    }

    function Read(id: u16, pe: u8): (lane: W.Option<Lane>)
      requires Valid()
      reads versions
      ensures lane == ReadOf(Contents(), id, pe)
    {
      if id >= 64 || pe >= 4 then W.None
      else if versions[id].initialized & PeMaskBit(pe) == 0 then W.None
      else W.Some(versions[id].lanes[pe])
    }

    method Reset()
      requires Valid()
      modifies versions
      ensures Contents() == EmptyBank()
    {
      forall k | 0 <= k < versions.Length {
        versions[k] := EmptyVersion();
      }
    }
  }

  /** `part` is the part of `mask` below n. */
  predicate PartBelow(part: bv8, mask: bv8, n: nat) {
    ValidMask(part) && forall k :: 0 <= k < 4 ==> (Has(part, k) <==> k < n && Has(mask, k))
  }

  function NextPart(part: bv8, mask: bv8, pe: nat): bv8 {
    if Has(mask, pe) then Join(part, PeMaskBit(pe)) else part
  }

  lemma {:induction false} NoPart(mask: bv8, a: bv8)
    ensures PartBelow(0, mask, 0) && Join(a, 0) == a
  {
  }

  lemma {:induction false} JoinHas(a: bv8, pe: nat, k: nat)
    requires pe < 4 && k < 4
    ensures Has(Join(a, PeMaskBit(pe)), k) <==> Has(a, k) || k == pe
    ensures ValidMask(a) ==> ValidMask(Join(a, PeMaskBit(pe)))
  {
  }

  lemma {:induction false} JoinAssociates(a: bv8, b: bv8, c: bv8)
    ensures Join(Join(a, b), c) == Join(a, Join(b, c))
  {
  }

  lemma {:induction false} PartNext(part: bv8, mask: bv8, pe: nat)
    requires pe < 4 && PartBelow(part, mask, pe)
    ensures PartBelow(NextPart(part, mask, pe), mask, pe + 1)
  {
    hide Has, Join, PeMaskBit, ValidMask;
    forall k | 0 <= k < 4
      ensures Has(NextPart(part, mask, pe), k) <==> k < pe + 1 && Has(mask, k)
    {
      JoinHas(part, pe, k);
    }
    JoinHas(part, pe, 0);
  }

  lemma {:induction false} WholePart(part: bv8, mask: bv8)
    requires PartBelow(part, mask, 4) && ValidMask(mask)
    ensures part == mask
  {
    assert Has(part, 0) <==> Has(mask, 0);
    assert Has(part, 1) <==> Has(mask, 1);
    assert Has(part, 2) <==> Has(mask, 2);
    assert Has(part, 3) <==> Has(mask, 3);
  }

  /** Filling the selected lanes below pe + 1 is filling those below pe, then pe if it is selected. */
  lemma {:induction false} FillStep(v: Version, mask: bv8, part: bv8, pe: nat, ds: Descriptors, ps: Payloads)
    requires pe < 4 && PartBelow(part, mask, pe)
    ensures Filled(v, NextPart(part, mask, pe), ds, ps) ==
            if Has(mask, pe) then WithLane(Filled(v, part, ds, ps), pe, ds[pe], ps[pe]) else Filled(v, part, ds, ps)
  {
    hide Has, Join, PeMaskBit, ValidMask;
    PartNext(part, mask, pe);
    JoinAssociates(v.initialized, part, PeMaskBit(pe));
    var before, after := WrittenLanes(v.lanes, part, ds, ps), WrittenLanes(v.lanes, NextPart(part, mask, pe), ds, ps);
    assert after == if Has(mask, pe) then before[pe := Lane(ds[pe], ps[pe])] else before;
  }

  lemma {:induction false} FillNothing(v: Version, mask: bv8, ds: Descriptors, ps: Payloads)
    ensures PartBelow(0, mask, 0) && Filled(v, 0, ds, ps) == v
  {
    NoPart(mask, v.initialized);
    hide Has, Join;
    assert WrittenLanes(v.lanes, 0, ds, ps) == v.lanes;
  }

  // ---------- Runs ----------

  datatype Op = Write(w: Request) | Reset

  function Step(b: Bank, op: Op): Bank {
    if op.Reset? then EmptyBank() else WriteOf(b, op.w)
  }

  function Run(b: Bank, ops: seq<Op>): Bank {
    if ops == [] then b else Step(Run(b, ops[..|ops| - 1]), ops[|ops| - 1])
  }
}

module SharedTileTheorems {
  import W = Wrappers
  import opened Words
  import opened SharedTiles

  // ---------- Refusals ----------

  /** A refusal by the preflight is the first failing check of the lowest selected lane that fails. */
  lemma {:induction false} LowestLaneDecides(v: Version, mask: bv8, capacity: u32, ds: Descriptors, ps: Payloads,
                                             pe: nat)
    returns (k: nat)
    requires pe <= 4 && Preflight(v, mask, capacity, ds, ps, pe) != Applied
    ensures pe <= k < 4 && Has(mask, k)
    ensures Preflight(v, mask, capacity, ds, ps, pe) == LaneStatus(v, k, capacity, ds[k], ps[k])
    ensures forall j :: pe <= j < k && Has(mask, j) ==> LaneStatus(v, j, capacity, ds[j], ps[j]) == Applied
    decreases 4 - pe
  {
    hide LaneStatus, Has;
    if Has(mask, pe) && LaneStatus(v, pe, capacity, ds[pe], ps[pe]) != Applied {
      k := pe;
    } else {
      k := LowestLaneDecides(v, mask, capacity, ds, ps, pe + 1);
    }
  }

  /** A write that is not applied changes nothing, and it is applied exactly when the register exists,
      the mask is a non-empty set of PEs within any earlier allocation, the size is known, and every
      selected lane passes every check. */
  lemma {:induction false} WriteIsAllOrNothing(b: Bank, w: Request)
    ensures StatusOf(b, w) != Applied ==> WriteOf(b, w) == b
    ensures StatusOf(b, w) == Applied <==>
            && w.id < 64 && ValidMask(w.mask) && w.mask != 0 && CapacityBytes(w.size).Some?
            && (b[w.id].allocation != 0 ==> w.mask & !b[w.id].allocation == 0)
            && forall pe :: 0 <= pe < 4 && Has(w.mask, pe) ==>
                 LaneStatus(b[w.id], pe, CapacityBytes(w.size).value, w.ds[pe], w.ps[pe]) == Applied
  {
    hide LaneStatus, Has, CapacityBytes, ValidMask;
  }

  // ---------- Every reachable bank ----------

  /** An allocated version holds full, valid lanes at exactly its allocation mask. */
  ghost predicate VersionSound(v: Version) {
    && ValidMask(v.allocation) && v.initialized == v.allocation
    && v.allocatedBytes == v.perPeCapacity * PopCount(v.allocation)
    && (v.allocation == 0 ==> v.perPeCapacity == 0)
    && (v.allocation != 0 ==> exists size: u8 :: CapacityBytes(size) == W.Some(v.perPeCapacity))
    && forall pe :: 0 <= pe < 4 && Has(v.initialized, pe) ==>
         |v.lanes[pe].data| == v.perPeCapacity && DescriptorValid(v.lanes[pe].descriptor, v.perPeCapacity)
  }

  ghost predicate BankSound(b: Bank) {
    forall id :: 0 <= id < 64 ==> VersionSound(b[id])
  }

  lemma {:induction false} MaskUnion(a: bv8, b: bv8, pe: nat)
    requires pe < 4
    ensures Has(Join(a, b), pe) <==> Has(a, pe) || Has(b, pe)
  {
  }

  lemma {:induction false} MaskWithin(a: bv8, b: bv8)
    ensures a & !b == 0 ==> Join(b, a) == b
    ensures Join(0, a) == a
    ensures a != 0 && ValidMask(a) ==> Has(a, 0) || Has(a, 1) || Has(a, 2) || Has(a, 3)
  {
  }

  lemma {:induction false} AppliedSound(v: Version, mask: bv8, size: u8, ds: Descriptors, ps: Payloads)
    requires VersionSound(v) && WriteStatus(v, mask, size, ds, ps) == Applied
    ensures VersionSound(ApplyOf(v, mask, CapacityBytes(size).value, ds, ps))
  {
    var capacity := CapacityBytes(size).value;
    var v' := ApplyOf(v, mask, capacity, ds, ps);
    MaskWithin(mask, v.allocation);
    if v.allocation == 0 {
      MaskWithin(mask, 0);
    } else {
      assert v.perPeCapacity == capacity;
    }
    forall pe | 0 <= pe < 4 && Has(v'.initialized, pe)
      ensures |v'.lanes[pe].data| == v'.perPeCapacity && DescriptorValid(v'.lanes[pe].descriptor, v'.perPeCapacity)
    {
      MaskUnion(v.initialized, mask, pe);
      assert Has(mask, pe) ==> LaneStatus(v, pe, capacity, ds[pe], ps[pe]) == Applied;
    }
  }

  /** In every reachable bank each allocated version has initialised exactly its allocation, its size is
      capacity times lanes, and every initialised lane is full-sized with a valid descriptor. */
  lemma {:induction false} ReachableSound(ops: seq<Op>)
    ensures BankSound(Run(EmptyBank(), ops))
  {
    if ops != [] {
      var n := |ops| - 1;
      var b := Run(EmptyBank(), ops[..n]);
      ReachableSound(ops[..n]);
      if ops[n].Write? && StatusOf(b, ops[n].w) == Applied {
        var w := ops[n].w;
        AppliedSound(b[w.id], w.mask, w.size, w.ds, w.ps);
      }
    }
  }

  // ---------- Reads see the latest applied write ----------

  /** Does this write, made to this bank, store lane `pe` of register `id`? */
  predicate Stores(b: Bank, op: Op, id: nat, pe: nat) {
    op.Write? && StatusOf(b, op.w) == Applied && op.w.id == id && Has(op.w.mask, pe)
  }

  /** The latest write since the last reset that was applied and selected this lane, or -1. */
  function LatestStore(ops: seq<Op>, id: nat, pe: nat): (k: int)
    ensures -1 <= k < |ops|
    ensures k >= 0 ==> ops[k].Write?
  {
    if ops == [] then -1
    else
      var n := |ops| - 1;
      if ops[n].Reset? then -1
      else if Stores(Run(EmptyBank(), ops[..n]), ops[n], id, pe) then n
      else LatestStore(ops[..n], id, pe)
  }

  predicate StoresAt(ops: seq<Op>, j: nat, id: nat, pe: nat)
    requires j < |ops|
  {
    Stores(Run(EmptyBank(), ops[..j]), ops[j], id, pe)
  }

  /** What LatestStore finds: after it neither a reset nor another store; without it every store is
      followed by a reset. */
  lemma {:induction false} LatestStoreMeaning(ops: seq<Op>, id: nat, pe: nat)
    ensures
      var k := LatestStore(ops, id, pe);
      if k >= 0 then
        StoresAt(ops, k, id, pe) && forall j :: k < j < |ops| ==> ops[j].Write? && !StoresAt(ops, j, id, pe)
      else
        forall j :: 0 <= j < |ops| && StoresAt(ops, j, id, pe) ==> exists i :: j < i < |ops| && ops[i].Reset?
    decreases |ops|
  {
    hide Stores, Run;
    if ops != [] {
      var n := |ops| - 1;
      LatestStoreMeaning(ops[..n], id, pe);
      forall j | 0 <= j < n
        ensures StoresAt(ops[..n], j, id, pe) == StoresAt(ops, j, id, pe)
      {
        assert ops[..n][..j] == ops[..j];
      }
      LatestAgain(ops, id, pe);
      forall j | 0 <= j < n && StoresAt(ops, j, id, pe) && LatestStore(ops, id, pe) < 0
        ensures exists i :: j < i < |ops| && ops[i].Reset?
      {
        if !ops[n].Reset? {
          var i :| j < i < n && ops[..n][i].Reset?;
          assert ops[i].Reset?;
        }
      }
    }
  }

  lemma {:induction false} LatestAgain(ops: seq<Op>, id: nat, pe: nat)
    requires ops != []
    ensures
      var n := |ops| - 1;
      LatestStore(ops, id, pe) ==
        if ops[n].Reset? then -1 else if StoresAt(ops, n, id, pe) then n else LatestStore(ops[..n], id, pe)
    ensures ops[|ops| - 1].Reset? ==> !StoresAt(ops, |ops| - 1, id, pe)
  {
    hide StatusOf, Has, Run;
  }

  /** A read returns the descriptor and payload of the latest applied write that selected that PE since
      the last reset, and nothing when there is none. */
  lemma {:induction false} ReadsLatestStore(ops: seq<Op>, id: u16, pe: u8)
    requires id < 64 && pe < 4
    ensures
      var k := LatestStore(ops, id, pe);
      ReadOf(Run(EmptyBank(), ops), id, pe) ==
        if k < 0 then W.None else W.Some(Lane(ops[k].w.ds[pe], ops[k].w.ps[pe]))
  {
    if ops == [] {
      NoLane(pe);
    } else {
      var n := |ops| - 1;
      var b := Run(EmptyBank(), ops[..n]);
      ReadsLatestStore(ops[..n], id, pe);
      NoLane(pe);
      if ops[n].Write? {
        ReadStep(b, ops[n].w, id, pe);
      }
    }
  }

  lemma {:induction false} NoLane(pe: nat)
    ensures !Has(0, pe)
  {
  }

  lemma {:induction false} ReadStep(b: Bank, w: Request, id: u16, pe: u8)
    requires id < 64 && pe < 4
    ensures ReadOf(WriteOf(b, w), id, pe) ==
            if Stores(b, Op.Write(w), id, pe) then W.Some(Lane(w.ds[pe], w.ps[pe])) else ReadOf(b, id, pe)
  {
    hide DescriptorValid, PopCount, PeMaskBit, Has, Join, ValidMask, Preflight, CapacityBytes;
    if StatusOf(b, w) == Applied && w.id == id {
      MaskUnion(b[id].initialized, w.mask, pe);
    }
  }

  // ---------- What the first applied write fixes ----------

  predicate NoReset(ops: seq<Op>) {
    forall k :: 0 <= k < |ops| ==> ops[k].Write?
  }

  /** The allocation, its size, its dtype, and the descriptor of every initialised lane. */
  predicate SameShape(v: Version, v': Version) {
    && v'.allocation == v.allocation && v'.initialized == v.initialized && v'.dtype == v.dtype
    && v'.perPeCapacity == v.perPeCapacity && v'.allocatedBytes == v.allocatedBytes
    && forall pe :: 0 <= pe < 4 && Has(v.initialized, pe) ==> v'.lanes[pe].descriptor == v.lanes[pe].descriptor
  }

  lemma {:induction false} ApplyKeepsShape(v: Version, mask: bv8, size: u8, ds: Descriptors, ps: Payloads)
    requires VersionSound(v) && v.allocation != 0 && WriteStatus(v, mask, size, ds, ps) == Applied
    ensures SameShape(v, ApplyOf(v, mask, CapacityBytes(size).value, ds, ps))
  {
    MaskWithin(mask, v.allocation);
    forall pe | 0 <= pe < 4 && Has(v.initialized, pe) && Has(mask, pe)
      ensures ds[pe] == v.lanes[pe].descriptor
    {
      assert LaneStatus(v, pe, CapacityBytes(size).value, ds[pe], ps[pe]) == Applied;
    }
  }

  /** Until a reset nothing but payload bytes of an allocated register ever changes. */
  lemma {:induction false} ShapeIsFrozen(b: Bank, ops: seq<Op>, id: nat)
    requires BankSound(b) && id < 64 && b[id].allocation != 0 && NoReset(ops)
    ensures BankSound(Run(b, ops)) && SameShape(b[id], Run(b, ops)[id])
  {
    hide VersionSound, PopCount, PeMaskBit, Has, Join, ValidMask, Preflight, CapacityBytes, ApplyOf, WriteStatus;
    if ops != [] {
      var n := |ops| - 1;
      assert ops[n].Write?;
      ShapeIsFrozen(b, ops[..n], id);
      var b1, w := Run(b, ops[..n]), ops[n].w;
      if StatusOf(b1, w) == Applied {
        AppliedSound(b1[w.id], w.mask, w.size, w.ds, w.ps);
        if w.id == id {
          ApplyKeepsShape(b1[id], w.mask, w.size, w.ds, w.ps);
        }
      }
    }
  }

  // ---------- The dtype of a register ----------

  /** Every initialised lane has the dtype of its register. */
  predicate DtypeUniform(v: Version) {
    forall pe :: 0 <= pe < 4 && Has(v.initialized, pe) ==> v.lanes[pe].descriptor.dtype == v.dtype
  }

  /** The selected descriptors of a write agree on the dtype. */
  predicate UniformRequest(w: Request) {
    forall j, k :: 0 <= j < 4 && 0 <= k < 4 && Has(w.mask, j) && Has(w.mask, k) ==> w.ds[j].dtype == w.ds[k].dtype
  }

  lemma {:induction false} FirstDtypeOf(mask: bv8, ds: Descriptors) returns (pe: nat)
    requires mask != 0 && ValidMask(mask)
    ensures pe < 4 && Has(mask, pe) && FirstDtype(mask, ds) == ds[pe].dtype
  {
    MaskWithin(mask, 0);
    pe := if Has(mask, 0) then 0 else if Has(mask, 1) then 1 else if Has(mask, 2) then 2 else 3;
  }

  /** A register is dtype-uniform, from its allocating write until a reset, if and only if the selected
      descriptors of that allocating write agree: the first write does not compare them. */
  lemma {:induction false} DtypeUniformExactly(b: Bank, w: Request, ops: seq<Op>)
    requires BankSound(b) && StatusOf(b, w) == Applied && b[w.id].allocation == 0 && NoReset(ops)
    ensures DtypeUniform(Run(WriteOf(b, w), ops)[w.id]) <==> UniformRequest(w)
  {
    var b1, id := WriteOf(b, w), w.id;
    AppliedSound(b[id], w.mask, w.size, w.ds, w.ps);
    MaskWithin(w.mask, 0);
    var first := FirstDtypeOf(w.mask, w.ds);
    var v := b1[id];
    assert v.initialized == w.mask && v.allocation == w.mask;
    assert forall pe :: 0 <= pe < 4 && Has(w.mask, pe) ==> v.lanes[pe].descriptor == w.ds[pe];
    assert v.dtype == w.ds[first].dtype;
    assert BankSound(b1);
    ShapeIsFrozen(b1, ops, id);
    var v' := Run(b1, ops)[id];
    assert SameShape(v, v');
    hide *;
    UniformFromShape(v, v', w, first);
  }

  lemma {:induction false} UniformFromShape(v: Version, v': Version, w: Request, first: nat)
    requires SameShape(v, v') && v.initialized == w.mask && first < 4 && Has(w.mask, first)
    requires v.dtype == w.ds[first].dtype
    requires forall pe :: 0 <= pe < 4 && Has(w.mask, pe) ==> v.lanes[pe].descriptor == w.ds[pe]
    ensures DtypeUniform(v') <==> UniformRequest(w)
  {
    hide Has;
    assert Has(v'.initialized, first);
  }

  /** One descriptor for all lanes always gives a uniform register. */
  lemma {:induction false} UniformWrite(b: Bank, w: Request, d: Descriptor, ops: seq<Op>)
    requires BankSound(b) && StatusOf(b, w) == Applied && b[w.id].allocation == 0 && NoReset(ops)
    requires w.ds == SameDescriptor(d)
    ensures DtypeUniform(Run(WriteOf(b, w), ops)[w.id])
  {
    hide Has;
    DtypeUniformExactly(b, w, ops);
  }

  /** A two-lane first write with two dtypes is applied, and leaves a lane whose dtype is not the
      register's. */
  lemma {:induction false} MixedDtypesAccepted() returns (w: Request)
    ensures StatusOf(EmptyBank(), w) == Applied && !DtypeUniform(WriteOf(EmptyBank(), w)[w.id])
  {
    var payload := seq(128, (k: int) => 0);
    var a, b := Descriptor(0, 1, 1, 1, 1), Descriptor(1, 1, 1, 1, 1);
    w := Request(0, 12, 1, [a, b, a, a], [payload, payload, payload, payload]);
    assert CapacityBytes(1) == W.Some(128);
    forall pe | 0 <= pe < 4
      ensures LaneStatus(EmptyVersion(), pe, 128, w.ds[pe], w.ps[pe]) == Applied
    {
      NoLane(pe);
    }
    NoResetAtAll();
    EmptySound();
    DtypeUniformExactly(EmptyBank(), w, []);
    assert Has(w.mask, 0) && Has(w.mask, 1) && w.ds[0].dtype != w.ds[1].dtype;
  }

  lemma {:induction false} NoResetAtAll()
    ensures NoReset([])
  {
  }

  lemma {:induction false} EmptySound()
    ensures BankSound(EmptyBank())
  {
    ReachableSound([]);
  }

  /** Such a lane can never be written again before a reset: every write that selects it is refused. */
  lemma {:induction false} MixedLaneIsStuck(b: Bank, w: Request, pe: nat)
    requires BankSound(b) && w.id < 64 && pe < 4 && Has(b[w.id].initialized, pe) && Has(w.mask, pe)
    requires b[w.id].lanes[pe].descriptor.dtype != b[w.id].dtype
    ensures StatusOf(b, w) != Applied
  {
    var v := b[w.id];
    NoLane(pe);
    assert v.allocation != 0;
    if CapacityBytes(w.size).Some? {
      assert LaneStatus(v, pe, CapacityBytes(w.size).value, w.ds[pe], w.ps[pe]) != Applied;
    }
  }
}
