/** When a written entry becomes readable. */
module QueueTiming {
  import opened Words
  import opened QueueSpec

  /** A write, seen from outside: how many unstalled Works had been done, and the latency then set. */
  datatype Stamp = Stamp(at: nat, latency: u32)

  /** What an observer counts along a run. */
  datatype Trace<T> = Trace(works: nat, stamps: seq<Stamp>, written: seq<T>, promoted: nat, taken: nat)

  function Observe<T>(q: QState<T>, tr: Trace<T>, op: Op<T>): Trace<T>
    requires Sound(q)
  {
    match op
    case Write(x) =>
      if Full(q) then tr
      else tr.(stamps := tr.stamps + [Stamp(tr.works, q.latency)], written := tr.written + [x])
    case Read => if q.readQ == [] then tr else tr.(taken := tr.taken + 1)
    case Work =>
      if q.stalled then tr
      else tr.(works := tr.works + 1, promoted := tr.promoted + DueCount(CountDown(q.delayQ)))
    case _ => tr
  }

  function TraceOf<T>(q: QState<T>, ops: seq<Op<T>>): Trace<T>
    requires Sound(q)
  {
    if ops == [] then Trace(0, [], [], 0, 0)
    else
      var before := ops[..|ops| - 1];
      Observe(Run(q, before), TraceOf(q, before), ops[|ops| - 1])
  }

  predicate NothingDropped<T>(ops: seq<Op<T>>) {
    forall k :: 0 <= k < |ops| ==> !ops[k].FlushIf? && !ops[k].Reset?
  }

  function Max(a: nat, b: nat): nat {
    if a > b then a else b
  }

  /** The earliest unstalled Work by which an entry's own latency has run out. */
  function OwnDue(s: Stamp): nat {
    s.at + Max(1, s.latency)
  }

  /** The unstalled Work at which entry k is readable: it also waits for every earlier entry. */
  function VisibleAt(stamps: seq<Stamp>, k: nat): (n: nat)
    requires k < |stamps|
    ensures forall j :: 0 <= j <= k ==> OwnDue(stamps[j]) <= n
    ensures exists j :: 0 <= j <= k && n == OwnDue(stamps[j])
  {
    if k == 0 then OwnDue(stamps[0])
    else Max(VisibleAt(stamps, k - 1), OwnDue(stamps[k]))
  }

  lemma {:induction false} VisibleAtPrefix(stamps: seq<Stamp>, more: seq<Stamp>, k: nat)
    requires k < |stamps|
    ensures VisibleAt(stamps + more, k) == VisibleAt(stamps, k)
  {
    if k > 0 {
      VisibleAtPrefix(stamps, more, k - 1);
    }
  }

  /** The observer's counts determine both sides of the queue and every remaining delay. */
  ghost predicate Consistent<T>(q: QState<T>, tr: Trace<T>) {
    && |tr.stamps| == |tr.written| && tr.taken <= tr.promoted <= |tr.written|
    && q.readQ == tr.written[tr.taken..tr.promoted]
    && q.writeQ == tr.written[tr.promoted..]
    && |q.delayQ| == |q.writeQ|
    && (forall k :: 0 <= k < |tr.stamps| ==> tr.stamps[k].at <= tr.works)
    && (forall k :: 0 <= k < |q.delayQ| ==> q.delayQ[k] == Remaining(tr, tr.promoted + k))
    && (forall k :: 0 <= k < tr.promoted ==> VisibleAt(tr.stamps, k) <= tr.works)
    && (tr.promoted < |tr.stamps| ==> VisibleAt(tr.stamps, tr.promoted) > tr.works)
  }

  function Remaining<T>(tr: Trace<T>, k: nat): nat
    requires k < |tr.stamps| && tr.stamps[k].at <= tr.works
  {
    var s := tr.stamps[k];
    if s.latency > tr.works - s.at then s.latency - (tr.works - s.at) else 0
  }

  lemma {:induction false} WriteConsistent<T>(q: QState<T>, tr: Trace<T>, x: T)
    requires Sound(q) && Consistent(q, tr) && !Full(q)
    ensures Consistent(Apply(q, Op.Write(x)), Observe(q, tr, Op.Write(x)))
  {
    var tr' := Observe(q, tr, Op.Write(x));
    forall k | 0 <= k < |tr.stamps|
      ensures VisibleAt(tr'.stamps, k) == VisibleAt(tr.stamps, k)
    {
      VisibleAtPrefix(tr.stamps, [Stamp(tr.works, q.latency)], k);
    }
  }

  /** Entries promoted together are exactly those whose time, and whose predecessors' time, has come. */
  lemma {:induction false} DueNow(stamps: seq<Stamp>, done: nat, k: nat, now: nat)
    requires done <= k < |stamps|
    requires forall j :: 0 <= j < done ==> VisibleAt(stamps, j) <= now
    requires forall j :: done <= j <= k ==> OwnDue(stamps[j]) <= now
    ensures VisibleAt(stamps, k) <= now
  {
    if k > done {
      DueNow(stamps, done, k - 1, now);
    }
  }

  lemma {:induction false} WorkMoves<T>(q: QState<T>, tr: Trace<T>)
    requires Sound(q) && Consistent(q, tr) && !q.stalled
    ensures
      var q', tr' := Apply(q, Op.Work), Observe(q, tr, Op.Work);
      && tr'.promoted <= |tr.written|
      && q'.readQ == tr.written[tr.taken..tr'.promoted] && q'.writeQ == tr.written[tr'.promoted..]
  {
    var n := DueCount(CountDown(q.delayQ));
    assert tr.written[tr.promoted..][..n] == tr.written[tr.promoted..tr.promoted + n];
    assert tr.written[tr.promoted..][n..] == tr.written[tr.promoted + n..];
    assert tr.written[tr.taken..tr.promoted] + tr.written[tr.promoted..tr.promoted + n] ==
           tr.written[tr.taken..tr.promoted + n];
  }

  lemma {:induction false} WorkCountsDown<T>(q: QState<T>, tr: Trace<T>, k: nat)
    requires Sound(q) && Consistent(q, tr) && !q.stalled && k < |q.delayQ|
    ensures
      var tr', d := Observe(q, tr, Op.Work), CountDown(q.delayQ)[k];
      && d == Remaining(tr', tr.promoted + k)
      && (d == 0 <==> OwnDue(tr.stamps[tr.promoted + k]) <= tr'.works)
  {
    assert q.delayQ[k] == Remaining(tr, tr.promoted + k);
  }

  lemma {:induction false} WorkShape<T>(q: QState<T>, tr: Trace<T>)
    requires Sound(q) && !q.stalled
    ensures
      var q', tr', n := Apply(q, Op.Work), Observe(q, tr, Op.Work), DueCount(CountDown(q.delayQ));
      && n <= |q.delayQ| && q'.delayQ == CountDown(q.delayQ)[n..]
      && tr'.promoted == tr.promoted + n && tr'.stamps == tr.stamps && tr'.works == tr.works + 1
  {
  }

  lemma {:induction false} WorkDelays<T>(q: QState<T>, tr: Trace<T>)
    requires Sound(q) && Consistent(q, tr) && !q.stalled
    ensures
      var q', tr' := Apply(q, Op.Work), Observe(q, tr, Op.Work);
      forall k :: 0 <= k < |q'.delayQ| ==> q'.delayQ[k] == Remaining(tr', tr'.promoted + k)
  {
    hide Apply, Observe, WorkOf, VisibleAt, CountDown, DueCount, Remaining;
    WorkShape(q, tr);
    var q', tr' := Apply(q, Op.Work), Observe(q, tr, Op.Work);
    var n := DueCount(CountDown(q.delayQ));
    forall k | 0 <= k < |q'.delayQ|
      ensures q'.delayQ[k] == Remaining(tr', tr'.promoted + k)
    {
      WorkCountsDown(q, tr, n + k);
      assert q'.delayQ[k] == CountDown(q.delayQ)[n + k];
    }
  }

  lemma {:induction false} WorkVisibility<T>(q: QState<T>, tr: Trace<T>)
    requires Sound(q) && Consistent(q, tr) && !q.stalled
    ensures
      var tr' := Observe(q, tr, Op.Work);
      && (forall k :: 0 <= k < tr'.promoted ==> VisibleAt(tr.stamps, k) <= tr'.works)
      && (tr'.promoted < |tr.stamps| ==> VisibleAt(tr.stamps, tr'.promoted) > tr'.works)
  {
    var tr' := Observe(q, tr, Op.Work);
    var n := DueCount(CountDown(q.delayQ));
    forall k | tr.promoted <= k < tr'.promoted
      ensures OwnDue(tr.stamps[k]) <= tr'.works
    {
      WorkCountsDown(q, tr, k - tr.promoted);
    }
    forall k | tr.promoted <= k < tr'.promoted
      ensures VisibleAt(tr.stamps, k) <= tr'.works
    {
      DueNow(tr.stamps, tr.promoted, k, tr'.works);
    }
    if n < |q.delayQ| {
      WorkCountsDown(q, tr, n);
    }
  }

  lemma {:induction false} WorkConsistent<T>(q: QState<T>, tr: Trace<T>)
    requires Sound(q) && Consistent(q, tr) && !q.stalled
    ensures Consistent(Apply(q, Op.Work), Observe(q, tr, Op.Work))
  {
    WorkMoves(q, tr);
    WorkDelays(q, tr);
    WorkVisibility(q, tr);
  }

  lemma {:induction false} RunConsistent<T>(q: QState<T>, ops: seq<Op<T>>)
    requires Sound(q) && q.writeQ == q.readQ == [] && NothingDropped(ops)
    ensures Consistent(Run(q, ops), TraceOf(q, ops))
  {
    if ops != [] {
      var n := |ops| - 1;
      var before := ops[..n];
      assert NothingDropped(before);
      RunConsistent(q, before);
      ConsistentStep(Run(q, before), TraceOf(q, before), ops[n]);
    }
  }

  lemma {:induction false} ConsistentStep<T>(q: QState<T>, tr: Trace<T>, op: Op<T>)
    requires Sound(q) && Consistent(q, tr) && !op.FlushIf? && !op.Reset?
    ensures Consistent(Apply(q, op), Observe(q, tr, op))
  {
    match op
    case Write(x) =>
      if !Full(q) {
        WriteConsistent(q, tr, x);
      }
    case Work =>
      if !q.stalled {
        WorkConsistent(q, tr);
      }
    case _ =>
  }

  lemma {:induction false} VisibleAtMonotone(stamps: seq<Stamp>, j: nat, k: nat)
    requires j <= k < |stamps|
    ensures VisibleAt(stamps, j) <= VisibleAt(stamps, k)
  {
    if j < k {
      VisibleAtMonotone(stamps, j, k - 1);
    }
  }

  /** Exact visibility time. Along any run of an initially empty queue that drops nothing, the k-th
      written entry has reached the read side if and only if the unstalled Works so far have reached
      VisibleAt; and the two sides are exactly the promoted and the waiting part of what was written. */
  lemma {:induction false} VisibleExactly<T>(q: QState<T>, ops: seq<Op<T>>, k: nat)
    requires Sound(q) && q.writeQ == q.readQ == [] && NothingDropped(ops)
    requires k < |TraceOf(q, ops).written|
    ensures
      var tr := TraceOf(q, ops);
      && |tr.stamps| == |tr.written| && tr.taken <= tr.promoted <= |tr.written|
      && (k < tr.promoted <==> VisibleAt(tr.stamps, k) <= tr.works)
      && Run(q, ops).readQ == tr.written[tr.taken..tr.promoted]
      && Run(q, ops).writeQ == tr.written[tr.promoted..]
  {
    RunConsistent(q, ops);
    var tr := TraceOf(q, ops);
    if k >= tr.promoted {
      VisibleAtMonotone(tr.stamps, tr.promoted, k);
    }
  }

  /** "Readable after exactly its own latency" holds for an entry if and only if no earlier entry is
      due later. */
  lemma {:induction false} OwnLatencyExactly(stamps: seq<Stamp>, k: nat)
    requires k < |stamps|
    ensures VisibleAt(stamps, k) == OwnDue(stamps[k]) <==>
            forall j :: 0 <= j < k ==> OwnDue(stamps[j]) <= OwnDue(stamps[k])
  {
  }

  predicate InOrder<T>(tr: Trace<T>, latency: u32) {
    && (forall k :: 0 <= k < |tr.stamps| ==> tr.stamps[k].latency == latency && tr.stamps[k].at <= tr.works)
    && (forall j, k :: 0 <= j <= k < |tr.stamps| ==> tr.stamps[j].at <= tr.stamps[k].at)
  }

  lemma {:induction false} StampsStep<T>(q: QState<T>, tr: Trace<T>, op: Op<T>)
    requires Sound(q) && InOrder(tr, q.latency) && !op.SetLatency?
    ensures Apply(q, op).latency == q.latency && InOrder(Observe(q, tr, op), q.latency)
  {
  }

  lemma {:induction false} StampsInOrder<T>(q: QState<T>, ops: seq<Op<T>>)
    requires Sound(q) && forall k :: 0 <= k < |ops| ==> !ops[k].SetLatency?
    ensures Run(q, ops).latency == q.latency && InOrder(TraceOf(q, ops), q.latency)
  {
    if ops != [] {
      var n := |ops| - 1;
      StampsInOrder(q, ops[..n]);
      StampsStep(Run(q, ops[..n]), TraceOf(q, ops[..n]), ops[n]);
    }
  }

  /** If the latency never changes, every entry is readable exactly max(1, latency) unstalled Works
      after its write. */
  lemma {:induction false} ConstantLatencyExactly<T>(q: QState<T>, ops: seq<Op<T>>, k: nat)
    requires Sound(q) && q.writeQ == q.readQ == [] && NothingDropped(ops)
    requires forall j :: 0 <= j < |ops| ==> !ops[j].SetLatency?
    requires k < |TraceOf(q, ops).written|
    ensures
      var tr := TraceOf(q, ops);
      && |tr.stamps| == |tr.written|
      && (k < tr.promoted <==> tr.works >= tr.stamps[k].at + Max(1, q.latency))
  {
    VisibleExactly(q, ops, k);
    StampsInOrder(q, ops);
    OwnLatencyExactly(TraceOf(q, ops).stamps, k);
  }

  lemma {:induction false} OneMore<T>(q: QState<T>, ops: seq<Op<T>>, op: Op<T>)
    requires Sound(q)
    ensures Run(q, ops + [op]) == Apply(Run(q, ops), op)
    ensures TraceOf(q, ops + [op]) == Observe(Run(q, ops), TraceOf(q, ops), op)
  {
    assert (ops + [op])[..|ops|] == ops;
  }

  lemma {:induction false} NoneYet<T>(q: QState<T>)
    requires Sound(q)
    ensures Run(q, []) == q && TraceOf(q, []) == Trace(0, [], [], 0, 0)
  {
  }

  lemma {:induction false} TwoWrites(q: QState<int>)
    requires q == Fresh(4, 3)
    ensures
      var ops := [] + [Op.Write(1)] + [Op.SetLatency(1)] + [Op.Write(2)];
      && Run(q, ops) == q.(writeQ := [1, 2], delayQ := [3, 1], latency := 1)
      && TraceOf(q, ops) == Trace(0, [Stamp(0, 3), Stamp(0, 1)], [1, 2], 0, 0)
  {
    hide Run, TraceOf;
    NoneYet(q);
    OneMore(q, [], Op.Write(1));
    OneMore(q, [] + [Op.Write(1)], Op.SetLatency(1));
    OneMore(q, [] + [Op.Write(1)] + [Op.SetLatency(1)], Op.Write(2));
  }

  /** An input: latency 3, then 1, and one Work later the second entry is due by its own latency and
      nothing is readable. */
  lemma {:induction false} LaterEntryWaitsInput()
    ensures
      var q := Fresh<int>(4, 3);
      var ops := [Op.Write(1), Op.SetLatency(1), Op.Write(2), Op.Work];
      var tr := TraceOf(q, ops);
      && Run(q, ops).readQ == [] && |tr.stamps| == 2 && tr.works == 1 && OwnDue(tr.stamps[1]) == 1
      && VisibleAt(tr.stamps, 1) == 3
  {
    hide Run, TraceOf;
    var q := Fresh<int>(4, 3);
    var ops: seq<Op<int>> := [] + [Op.Write(1)] + [Op.SetLatency(1)] + [Op.Write(2)];
    TwoWrites(q);
    OneMore(q, ops, Op.Work);
    assert ops + [Op.Work] == [Op.Write(1), Op.SetLatency(1), Op.Write(2), Op.Work];
    assert CountDown([3, 1]) == [2, 0] && DueCount([2, 0]) == 0;
  }
}

/** What is in the queue is what was written, in order, less what was taken or flushed; and the epoch
    is a version number of the readable side. */
module QueueHistory {
  import opened Words
  import opened QueueSpec

  /** Entries by the number of their write. */
  datatype Ledger<T> = Ledger(
    written: seq<T>, taken: seq<int>, visible: seq<int>, waiting: seq<int>, dropped: set<int>)

  function Pick<T>(written: seq<T>, ids: seq<int>): (r: seq<T>)
    requires Below(ids, |written|)
    ensures |r| == |ids| && forall k :: 0 <= k < |r| ==> r[k] == written[ids[k]]
  {
    seq(|ids|, (k: int) requires 0 <= k < |ids| => written[ids[k]])
  }

  function KeepIds<T>(written: seq<T>, doomed: T -> bool): int -> bool {
    (i: int) => 0 <= i < |written| && !doomed(written[i])
  }

  /** The write numbers a flush removes: those still in the queue whose value matches. */
  function DoomedIds<T>(l: Ledger<T>, doomed: T -> bool): set<int> {
    set i | i in l.visible + l.waiting && 0 <= i < |l.written| && doomed(l.written[i])
  }

  function Book<T>(q: QState<T>, l: Ledger<T>, op: Op<T>): Ledger<T>
    requires Sound(q)
  {
    match op
    case Write(x) =>
      if Full(q) then l else l.(written := l.written + [x], waiting := l.waiting + [|l.written|])
    case Read =>
      if l.visible == [] then l else l.(taken := l.taken + [l.visible[0]], visible := l.visible[1..])
    case Work =>
      var n := if q.stalled then 0 else DueCount(CountDown(q.delayQ));
      if n > |l.waiting| then l else l.(visible := l.visible + l.waiting[..n], waiting := l.waiting[n..])
    case FlushIf(doomed) =>
      l.(visible := Filter(l.visible, KeepIds(l.written, doomed)),
         waiting := Filter(l.waiting, KeepIds(l.written, doomed)),
         dropped := l.dropped + DoomedIds(l, doomed))
    case Reset =>
      l.(visible := [], waiting := [], dropped := l.dropped + set i | i in l.visible + l.waiting)
    case _ => l
  }

  function LedgerOf<T>(q: QState<T>, ops: seq<Op<T>>): Ledger<T>
    requires Sound(q)
  {
    if ops == [] then Ledger([], [], [], [], {})
    else
      var before := ops[..|ops| - 1];
      Book(Run(q, before), LedgerOf(q, before), ops[|ops| - 1])
  }

  predicate Increasing(ids: seq<int>) {
    forall j, k :: 0 <= j < k < |ids| ==> ids[j] < ids[k]
  }

  predicate Below(ids: seq<int>, n: nat) {
    forall k :: 0 <= k < |ids| ==> 0 <= ids[k] < n
  }

  function All<T>(l: Ledger<T>): seq<int> {
    l.taken + l.visible + l.waiting
  }

  /** The entries accounted for are the writes in order, each once, less exactly the dropped ones. */
  ghost predicate Accounted<T>(l: Ledger<T>) {
    && Increasing(All(l)) && Below(All(l), |l.written|)
    && (forall i :: i in All(l) <==> 0 <= i < |l.written| && i !in l.dropped)
    && (forall i :: i in l.dropped ==> 0 <= i < |l.written|)
  }

  ghost predicate Balanced<T>(q: QState<T>, l: Ledger<T>) {
    && Accounted(l)
    && Below(l.visible, |l.written|) && q.readQ == Pick(l.written, l.visible)
    && Below(l.waiting, |l.written|) && q.writeQ == Pick(l.written, l.waiting)
  }

  lemma {:induction false} FilterMembers<A>(s: seq<A>, keep: A -> bool, x: A)
    ensures x in Filter(s, keep) <==> x in s && keep(x)
  {
    if s != [] {
      FilterMembers(s[..|s| - 1], keep, x);
      assert s == s[..|s| - 1] + [s[|s| - 1]];
    }
  }

  /** A filtered increasing list stays increasing. */
  lemma {:induction false} FilterIncreasing(s: seq<int>, keep: int -> bool)
    requires Increasing(s)
    ensures Increasing(Filter(s, keep))
  {
    if s != [] {
      var n := |s| - 1;
      FilterIncreasing(s[..n], keep);
      forall k | 0 <= k < |Filter(s[..n], keep)|
        ensures Filter(s[..n], keep)[k] < s[n]
      {
        FilterMembers(s[..n], keep, Filter(s[..n], keep)[k]);
      }
    }
  }

  predicate AllBefore(a: seq<int>, b: seq<int>) {
    forall j, k :: 0 <= j < |a| && 0 <= k < |b| ==> a[j] < b[k]
  }

  lemma {:induction false} JoinIncreasing(a: seq<int>, b: seq<int>)
    requires Increasing(a) && Increasing(b) && AllBefore(a, b)
    ensures Increasing(a + b)
  {
  }

  lemma {:induction false} SplitIncreasing(a: seq<int>, b: seq<int>)
    requires Increasing(a + b)
    ensures Increasing(a) && Increasing(b) && AllBefore(a, b)
  {
    assert forall j :: 0 <= j < |a| ==> (a + b)[j] == a[j];
    assert forall k :: 0 <= k < |b| ==> (a + b)[|a| + k] == b[k];
  }

  /** Filtering two parts of an increasing list behind an untouched one keeps the whole increasing. */
  lemma {:induction false} FilterTail(taken: seq<int>, a: seq<int>, b: seq<int>, keep: int -> bool)
    requires Increasing(taken + a + b)
    ensures Increasing(taken + Filter(a, keep) + Filter(b, keep))
  {
    var a', b' := Filter(a, keep), Filter(b, keep);
    SplitIncreasing(taken + a, b);
    SplitIncreasing(taken, a);
    FilterIncreasing(a, keep);
    FilterIncreasing(b, keep);
    forall j | 0 <= j < |a'|
      ensures a'[j] in a
    {
      FilterMembers(a, keep, a'[j]);
    }
    forall j | 0 <= j < |b'|
      ensures b'[j] in b
    {
      FilterMembers(b, keep, b'[j]);
    }
    JoinIncreasing(taken, a');
    assert forall k :: 0 <= k < |taken + a| ==> (taken + a)[k] == if k < |taken| then taken[k] else a[k - |taken|];
    assert AllBefore(taken, b) by {
      assert forall k :: 0 <= k < |taken| ==> (taken + a)[k] == taken[k];
    }
    assert AllBefore(a, b) by {
      assert forall k :: 0 <= k < |a| ==> (taken + a)[|taken| + k] == a[k];
    }
    assert AllBefore(taken + a', b');
    JoinIncreasing(taken + a', b');
  }

  lemma {:induction false} FilterBelow(s: seq<int>, keep: int -> bool, n: nat)
    requires Below(s, n)
    ensures Below(Filter(s, keep), n)
  {
    var kept := Filter(s, keep);
    forall k | 0 <= k < |kept|
      ensures 0 <= kept[k] < n
    {
      FilterMembers(s, keep, kept[k]);
    }
  }

  lemma {:induction false} PickJoin<T>(written: seq<T>, a: seq<int>, b: seq<int>)
    requires Below(a, |written|) && Below(b, |written|)
    ensures Pick(written, a + b) == Pick(written, a) + Pick(written, b)
  {
  }

  lemma {:induction false} FilterPicked<T>(written: seq<T>, ids: seq<int>, doomed: T -> bool)
    requires Below(ids, |written|)
    ensures Below(Filter(ids, KeepIds(written, doomed)), |written|)
    ensures Filter(Pick(written, ids), Spared(doomed)) == Pick(written, Filter(ids, KeepIds(written, doomed)))
  {
    FilterBelow(ids, KeepIds(written, doomed), |written|);
    if ids != [] {
      var n := |ids| - 1;
      FilterPicked(written, ids[..n], doomed);
      assert Pick(written, ids)[..n] == Pick(written, ids[..n]);
      PickJoin(written, Filter(ids[..n], KeepIds(written, doomed)),
               if KeepIds(written, doomed)(ids[n]) then [ids[n]] else []);
    }
  }

  lemma {:induction false} FilterPairsEntries<T>(ws: seq<T>, ds: seq<u32>, doomed: T -> bool)
    requires |ws| == |ds|
    ensures Entries(Filter(Zip(ws, ds), SparedPair(doomed))) == Filter(ws, Spared(doomed))
  {
    if ws != [] {
      var n := |ws| - 1;
      FilterPairsEntries(ws[..n], ds[..n], doomed);
      assert Zip(ws, ds)[..n] == Zip(ws[..n], ds[..n]);
    }
  }

  lemma {:induction false} FlushAccounted<T>(q: QState<T>, l: Ledger<T>, doomed: T -> bool)
    requires Sound(q) && Accounted(l)
    ensures Accounted(Book(q, l, Op.FlushIf(doomed)))
  {
    var keep := KeepIds(l.written, doomed);
    var l' := Book(q, l, Op.FlushIf(doomed));
    FilterTail(l.taken, l.visible, l.waiting, keep);
    forall i
      ensures i in All(l') <==> 0 <= i < |l'.written| && i !in l'.dropped
    {
      FilterMembers(l.visible, keep, i);
      FilterMembers(l.waiting, keep, i);
      assert i in All(l) <==> i in l.taken || i in l.visible || i in l.waiting;
      assert i in All(l') <==> i in l.taken || i in l'.visible || i in l'.waiting;
      if i in l.taken {
        TakenIsGone(l, i);
      }
    }
    forall k | 0 <= k < |All(l')|
      ensures 0 <= All(l')[k] < |l.written|
    {
      assert All(l')[k] in All(l');
    }
  }

  /** An entry already taken is in neither side of the queue any more. */
  lemma {:induction false} TakenIsGone<T>(l: Ledger<T>, i: int)
    requires Accounted(l) && i in l.taken
    ensures i !in l.visible && i !in l.waiting
  {
    SplitIncreasing(l.taken + l.visible, l.waiting);
    SplitIncreasing(l.taken, l.visible);
    var j :| 0 <= j < |l.taken| && l.taken[j] == i;
    assert (l.taken + l.visible)[j] == i;
  }

  lemma {:induction false} WriteBalanced<T>(q: QState<T>, l: Ledger<T>, x: T)
    requires Sound(q) && Balanced(q, l) && !Full(q)
    ensures Balanced(Apply(q, Op.Write(x)), Book(q, l, Op.Write(x)))
  {
    var l' := Book(q, l, Op.Write(x));
    assert All(l') == All(l) + [|l.written|];
    JoinIncreasing(All(l), [|l.written|]);
    forall i
      ensures i in All(l') <==> 0 <= i < |l'.written| && i !in l'.dropped
    {
      assert i in All(l') <==> i in All(l) || i == |l.written|;
    }
  }

  lemma {:induction false} PickParts<T>(written: seq<T>, ids: seq<int>, n: nat)
    requires Below(ids, |written|) && n <= |ids|
    ensures Below(ids[..n], |written|) && Pick(written, ids[..n]) == Pick(written, ids)[..n]
    ensures Below(ids[n..], |written|) && Pick(written, ids[n..]) == Pick(written, ids)[n..]
  {
  }

  lemma {:induction false} ReadBalanced<T>(q: QState<T>, l: Ledger<T>)
    requires Sound(q) && Balanced(q, l)
    ensures Balanced(Apply(q, Op.Read), Book(q, l, Op.Read))
  {
    assert All(Book(q, l, Op.Read)) == All(l);
    if q.readQ != [] {
      PickParts(l.written, l.visible, 1);
    }
  }

  lemma {:induction false} WorkBalanced<T>(q: QState<T>, l: Ledger<T>)
    requires Sound(q) && Balanced(q, l)
    ensures Balanced(Apply(q, Op.Work), Book(q, l, Op.Work))
  {
    if !q.stalled {
      var n := DueCount(CountDown(q.delayQ));
      assert All(Book(q, l, Op.Work)) == All(l);
      PickParts(l.written, l.waiting, n);
      PickJoin(l.written, l.visible, l.waiting[..n]);
    } else {
      assert l.visible + l.waiting[..0] == l.visible && l.waiting[0..] == l.waiting;
    }
  }

  lemma {:induction false} ResetAccounted<T>(q: QState<T>, l: Ledger<T>)
    requires Sound(q) && Accounted(l)
    ensures Accounted(Book(q, l, Op.Reset))
  {
    var l' := Book(q, l, Op.Reset);
    SplitIncreasing(l.taken + l.visible, l.waiting);
    SplitIncreasing(l.taken, l.visible);
    assert All(l') == l.taken;
    forall i
      ensures i in All(l') <==> 0 <= i < |l'.written| && i !in l'.dropped
    {
      assert i in All(l) <==> i in l.taken || i in l.visible || i in l.waiting;
      if i in l.taken {
        TakenIsGone(l, i);
      }
    }
    forall k | 0 <= k < |All(l')|
      ensures 0 <= All(l')[k] < |l.written|
    {
      assert All(l')[k] in All(l');
    }
  }

  /** Conservation and order: at all times the entries taken, then the readable ones, then the waiting
      ones are the writes in order, each exactly once, less exactly those a flush or reset dropped. */
  lemma {:induction false} Conserved<T>(q: QState<T>, ops: seq<Op<T>>)
    requires Sound(q) && q.writeQ == q.readQ == []
    ensures Balanced(Run(q, ops), LedgerOf(q, ops))
  {
    if ops != [] {
      var n := |ops| - 1;
      Conserved(q, ops[..n]);
      BalancedStep(Run(q, ops[..n]), LedgerOf(q, ops[..n]), ops[n]);
    }
  }

  lemma {:induction false} BalancedStep<T>(q: QState<T>, l: Ledger<T>, op: Op<T>)
    requires Sound(q) && Balanced(q, l)
    ensures Balanced(Apply(q, op), Book(q, l, op))
  {
    match op
    case Write(x) =>
      if !Full(q) {
        WriteBalanced(q, l, x);
      }
    case FlushIf(doomed) =>
      FlushAccounted(q, l, doomed);
      FilterPairsEntries(q.writeQ, q.delayQ, doomed);
      FilterPicked(l.written, l.visible, doomed);
      FilterPicked(l.written, l.waiting, doomed);
    case Reset => ResetAccounted(q, l);
    case Read => ReadBalanced(q, l);
    case Work => WorkBalanced(q, l);
    case _ =>
  }

  // ---------- The epoch ----------

  /** Does this operation change what a reader can see? */
  ghost predicate Changes<T>(q: QState<T>, op: Op<T>)
    requires Sound(q)
  {
    Apply(q, op).readQ != q.readQ
  }

  ghost function ChangeCount<T>(q: QState<T>, ops: seq<Op<T>>): nat
    requires Sound(q)
  {
    if ops == [] then 0
    else
      var before := ops[..|ops| - 1];
      ChangeCount(q, before) + if Changes(Run(q, before), ops[|ops| - 1]) then 1 else 0
  }

  predicate NoReset<T>(ops: seq<Op<T>>) {
    forall k :: 0 <= k < |ops| ==> !ops[k].Reset?
  }

  lemma {:induction false} FilterShorter<A>(s: seq<A>, keep: A -> bool)
    ensures |Filter(s, keep)| == |s| ==> Filter(s, keep) == s
  {
    if s != [] {
      FilterShorter(s[..|s| - 1], keep);
    }
  }

  /** An operation other than Reset bumps the epoch if and only if it changes the readable side. */
  lemma {:induction false} BumpsExactlyOnChange<T>(q: QState<T>, op: Op<T>)
    requires Sound(q) && !op.Reset?
    ensures Apply(q, op).epoch == if Changes(q, op) then Bump(q.epoch) else q.epoch
  {
    match op
    case FlushIf(doomed) => FilterShorter(q.readQ, Spared(doomed));
    case Work =>
      if !q.stalled {
        var n := DueCount(CountDown(q.delayQ));
        assert |Apply(q, op).readQ| == |q.readQ| + n;
        assert n == 0 ==> Apply(q, op).readQ == q.readQ;
      }
    case Read =>
      if q.readQ != [] {
        assert |q.readQ[1..]| != |q.readQ|;
      }
    case _ =>
  }

  lemma {:induction false} EpochCountsChanges<T>(q: QState<T>, ops: seq<Op<T>>)
    requires Sound(q) && NoReset(ops)
    ensures Run(q, ops).epoch == (q.epoch + ChangeCount(q, ops)) % TWO_64
    ensures ChangeCount(q, ops) == 0 ==> Run(q, ops).readQ == q.readQ
  {
    hide Apply, Changes;
    if ops != [] {
      var n := |ops| - 1;
      assert NoReset(ops[..n]) && !ops[n].Reset?;
      EpochCountsChanges(q, ops[..n]);
      EpochStep(q.epoch, ChangeCount(q, ops[..n]), Run(q, ops[..n]), ops[n]);
    }
  }

  lemma {:induction false} EpochStep<T>(start: u64, changes: nat, q: QState<T>, op: Op<T>)
    requires Sound(q) && !op.Reset? && q.epoch == (start + changes) % TWO_64
    ensures Apply(q, op).epoch == (start + changes + if Changes(q, op) then 1 else 0) % TWO_64
    ensures !Changes(q, op) ==> Apply(q, op).readQ == q.readQ
  {
    BumpsExactlyOnChange(q, op);
    BumpMod(start + changes);
  }

  lemma {:induction false} BumpMod(n: nat)
    ensures (n % TWO_64 + 1) % TWO_64 == (n + 1) % TWO_64
  {
    var k := n / TWO_64;
    assert n == k * TWO_64 + n % TWO_64;
    if n % TWO_64 + 1 < TWO_64 {
      ModUnique(n + 1, k, n % TWO_64 + 1);
    } else {
      ModUnique(n + 1, k + 1, 0);
    }
  }

  /** The epoch is a version number: across a run without Reset and with fewer than 2^64 changes, the
      epoch is unchanged exactly when nothing visible changed at any step, so equal epochs mean equal
      visible contents; and until it wraps it never decreases. */
  lemma {:induction false} EpochIsVersion<T>(q: QState<T>, ops: seq<Op<T>>)
    requires Sound(q) && NoReset(ops) && ChangeCount(q, ops) < TWO_64
    ensures Run(q, ops).epoch == q.epoch <==> ChangeCount(q, ops) == 0
    ensures Run(q, ops).epoch == q.epoch ==> Run(q, ops).readQ == q.readQ
    ensures q.epoch + ChangeCount(q, ops) < TWO_64 ==> Run(q, ops).epoch == q.epoch + ChangeCount(q, ops)
  {
    hide Run, ChangeCount, NoReset, Sound;
    EpochCountsChanges(q, ops);
    var n := q.epoch + ChangeCount(q, ops);
    if n < TWO_64 {
      ModUnique(n, 0, n);
    } else {
      ModUnique(n, 1, n - TWO_64);
    }
  }
}
