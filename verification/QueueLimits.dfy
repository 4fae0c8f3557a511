/** What capacity, latency and stall do to a queue, in plain numbers. */
module QueueLimits {
  import opened Words
  import opened QueueSpec

  /** A write is taken exactly while fewer entries than the capacity are held, readable and waiting together;
      it waits the current latency, and a refused one changes nothing. */
  lemma {:induction false} WriteExactly<T>(q: QState<T>, x: T)
    requires Sound(q)
    ensures
      var q' := Apply(q, Op.Write(x));
      if |q.readQ| + |q.writeQ| < q.maxSize then
        && q'.writeQ == q.writeQ + [x] && q'.delayQ == q.delayQ + [q.latency] && q'.readQ == q.readQ
        && q'.epoch == q.epoch && q'.maxSize == q.maxSize && q'.latency == q.latency && q'.stalled == q.stalled
      else q' == q
  {
  }

  function Writes<T>(xs: seq<T>): (ops: seq<Op<T>>)
    ensures |ops| == |xs| && forall k :: 0 <= k < |xs| ==> ops[k] == Op.Write(xs[k])
  {
    seq(|xs|, (k: int) requires 0 <= k < |xs| => Op.Write(xs[k]))
  }

  function Works<T>(n: nat): (ops: seq<Op<T>>)
    ensures |ops| == n && forall k :: 0 <= k < n ==> ops[k] == Op.Work
  {
    seq(n, (k: int) => Op.Work)
  }

  /** A new queue of capacity n takes exactly the first n of any writes in a row. */
  lemma {:induction false} TakesItsCapacity<T>(n: nat, latency: u32, xs: seq<T>)
    requires n > 0
    ensures
      var q := Run(Fresh(n, latency), Writes(xs));
      && q.writeQ == (if |xs| <= n then xs else xs[..n]) && q.readQ == [] && q.maxSize == n && q.latency == latency
      && forall k :: 0 <= k < |q.delayQ| ==> q.delayQ[k] == latency
  {
    hide Apply;
    if xs != [] {
      var k := |xs| - 1;
      assert Writes(xs)[..k] == Writes(xs[..k]);
      TakesItsCapacity(n, latency, xs[..k]);
      WriteExactly(Run(Fresh(n, latency), Writes(xs[..k])), xs[k]);
    }
  }

  /** A new capacity is taken exactly when it is positive and holds what the queue holds. */
  lemma {:induction false} CapacityExactly<T>(q: QState<T>, n: nat)
    requires Sound(q)
    ensures
      var q' := Apply(q, InitMaxSize(n));
      && q'.maxSize == (if 0 < n && |q.readQ| + |q.writeQ| <= n then n else q.maxSize)
      && q'.readQ == q.readQ && q'.writeQ == q.writeQ && q'.delayQ == q.delayQ
      && q'.latency == q.latency && q'.stalled == q.stalled && q'.epoch == q.epoch
  {
  }

  /** A new latency holds for the writes after it and leaves the entries already waiting alone. */
  lemma {:induction false} LatencyHoldsLater<T>(q: QState<T>, n: u32, x: T)
    requires Sound(q) && |q.readQ| + |q.writeQ| < q.maxSize
    ensures
      var q' := Run(q, [SetLatency(n), Op.Write(x)]);
      && q'.writeQ == q.writeQ + [x] && q'.delayQ == q.delayQ + [n] && q'.readQ == q.readQ
  {
    var ops := [SetLatency(n), Op.Write(x)];
    assert ops[..1] == [SetLatency(n)] && ops[..1][..0] == [];
    assert Run(q, []) == q;
    WriteExactly(Apply(q, SetLatency(n)), x);
  }

  lemma {:induction false} StalledWorks<T>(q: QState<T>, n: nat)
    requires Sound(q) && q.stalled
    ensures Run(q, Works(n)) == q
  {
    if n > 0 {
      assert Works<T>(n)[..n - 1] == Works<T>(n - 1);
      StalledWorks(q, n - 1);
    }
  }

  /** A stall freezes the queue through any number of turns, and when it ends everything goes on from where
      it stood: the entries, their delays and the epoch. */
  lemma {:induction false} StallFreezes<T>(q: QState<T>, n: nat)
    requires Sound(q)
    ensures
      var q' := Run(Apply(q, SetStall(true)), Works(n));
      && q' == q.(stalled := true) && Apply(q', SetStall(false)) == q.(stalled := false)
  {
    StalledWorks(Apply(q, SetStall(true)), n);
  }

  /** Without a stall a turn takes one from every positive delay, and exactly the due entries at the front
      become readable. */
  lemma {:induction false} TurnMoves<T>(q: QState<T>, n: nat)
    requires Sound(q) && !q.stalled && n <= |q.delayQ|
    requires (forall k :: 0 <= k < n ==> q.delayQ[k] <= 1) && (n < |q.delayQ| ==> q.delayQ[n] >= 2)
    ensures
      var q' := Apply(q, Op.Work);
      && q'.readQ == q.readQ + q.writeQ[..n] && q'.writeQ == q.writeQ[n..]
      && |q'.delayQ| == |q.delayQ| - n
      && (forall k :: 0 <= k < |q'.delayQ| ==> q'.delayQ[k] == if q.delayQ[n + k] > 0 then q.delayQ[n + k] - 1 else 0)
      && q'.epoch == (if n > 0 then (q.epoch + 1) % TWO_64 else q.epoch)
  {
    var counted := CountDown(q.delayQ);
    var due := DueCount(counted);
    assert n < |counted| ==> counted[n] > 0;
    assert forall k :: 0 <= k < n ==> counted[k] == 0;
  }

  /** A read takes the oldest readable entry; on a queue with none it changes nothing. */
  lemma {:induction false} ReadExactly<T>(q: QState<T>)
    requires Sound(q)
    ensures
      var q' := Apply(q, Op.Read);
      if q.readQ == [] then q' == q
      else q'.readQ == q.readQ[1..] && q'.writeQ == q.writeQ && q'.delayQ == q.delayQ
           && q'.epoch == (q.epoch + 1) % TWO_64
  {
  }

  /** A reset leaves an empty queue at epoch 0 that is not stalled, with its capacity and latency. */
  lemma {:induction false} ResetExactly<T>(q: QState<T>)
    requires Sound(q)
    ensures
      var q' := Apply(q, Op.Reset);
      && q'.readQ == [] && q'.writeQ == [] && q'.delayQ == [] && q'.epoch == 0 && !q'.stalled
      && q'.maxSize == q.maxSize && q'.latency == q.latency
  {
  }

  /** A flush keeps exactly the entries that are not doomed, on each side; waiting ones keep their delays. */
  lemma {:induction false} FlushExactly<T>(q: QState<T>, doomed: T -> bool, x: T)
    requires Sound(q)
    ensures
      var q' := Apply(q, Op.FlushIf(doomed));
      && multiset(q'.readQ)[x] == (if doomed(x) then 0 else multiset(q.readQ)[x])
      && (forall p :: multiset(Zip(q'.writeQ, q'.delayQ))[(x, p)] ==
            if doomed(x) then 0 else multiset(Zip(q.writeQ, q.delayQ))[(x, p)])
      && q'.epoch == (if |q'.readQ| < |q.readQ| then (q.epoch + 1) % TWO_64 else q.epoch)
      && q'.maxSize == q.maxSize && q'.latency == q.latency && q'.stalled == q.stalled
  {
    FilterCounts(q.readQ, Spared(doomed), x);
    var pairs := Filter(Zip(q.writeQ, q.delayQ), SparedPair(doomed));
    assert Zip(Entries(pairs), Delays(pairs)) == pairs;
    forall p
      ensures multiset(pairs)[(x, p)] == if doomed(x) then 0 else multiset(Zip(q.writeQ, q.delayQ))[(x, p)]
    {
      FilterCounts(Zip(q.writeQ, q.delayQ), SparedPair(doomed), (x, p));
    }
  }

  lemma {:induction false} FilterCounts<A>(s: seq<A>, keep: A -> bool, x: A)
    ensures multiset(Filter(s, keep))[x] == if keep(x) then multiset(s)[x] else 0
  {
    if s != [] {
      var n := |s| - 1;
      FilterCounts(s[..n], keep, x);
      assert s == s[..n] + [s[n]];
    }
  }
}
