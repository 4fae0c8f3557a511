/** A queue of the tree, cycle by cycle: when an entry written in one cycle can first be read. */
module QueueCycles {
  import opened QueueSpec
  import opened QueueTiming
  import opened SimQueues
  import opened Scheduler
  import opened SchedulerTheorems
  import opened Wiring
  import opened WorkXferPairing
  import opened PassHistory
  import opened SystemCycles
  import opened WakeUps

  // ---------- Which operations reach a queue, and when its own Work comes ----------

  predicate NoWork<T>(ops: seq<Op<T>>) {
    forall k :: 0 <= k < |ops| ==> !ops[k].Work?
  }

  lemma {:induction false} OpsOnNoWork<T>(ports: seq<SimQueue?<T>>, ops: seq<PortOp<T>>, q: SimQueue?<T>)
    ensures NoWork(OpsOn(ports, ops, q))
    ensures q !in ports ==> OpsOn(ports, ops, q) == []
  {
    if ops != [] {
      OpsOnNoWork(ports, ops[..|ops| - 1], q);
    }
  }

  lemma {:induction false} TurnNoWork<T, L>(w: World<T, L>, m: Module<T, L>, q: SimQueue<T>)
    requires m in w.ms
    ensures NoWork(TurnOps(w, m, q)) && (q !in m.Ports() ==> TurnOps(w, m, q) == [])
  {
    OpsOnNoWork(m.Ports(), m.workSelf(w.ms[m].local, Views(w, m.Ports())).ops, q);
  }

  lemma {:induction false} OwnedOnce<T>(qs: seq<SimQueue<T>>, q: SimQueue<T>)
    requires NoRepeats(qs)
    ensures OwnedOps(qs, q) == if q in qs then [Op.Work] else []
  {
    if qs != [] {
      var n := |qs| - 1;
      OwnedOnce(qs[..n], q);
      assert qs == qs[..n] + [qs[n]];
    }
  }

  lemma {:induction false} OwnPorts<T, L>(m: Module<T, L>, q: SimQueue<T>)
    requires Tree(m) && Distinct(m)
    ensures q !in Seen(Bound, m) ==> q !in m.Ports()
    ensures q !in Owned(m) ==> q !in m.ownedQueues
    ensures NoRepeats(m.ownedQueues)
    ensures q in Owned(m) <==> q in OwnedUpTo(m, |m.submodules|) || q in m.ownedQueues
    ensures !(q in OwnedUpTo(m, |m.submodules|) && q in m.ownedQueues)
    ensures OwnedUpTo(m, 0) == {} && Seen(Bound, m) == SightSet(Bound, m) + SeenUpTo(Bound, m, |m.submodules|)
  {
    assert q in m.Ports() ==> q in SightSet(Bound, m);
  }

  lemma {:induction false} ChildrenNothing<T, L>(w: World<T, L>, m: Module<T, L>, n: nat, q: SimQueue<T>)
    requires Tree(m) && Distinct(m) && n <= |m.submodules|
    requires Modules(m) <= w.ms.Keys && q !in SeenUpTo(Bound, m, n) + OwnedUpTo(m, n)
    ensures ChildrenOps(w, m, n, q) == []
    decreases m.height, n
  {
    hide *;
    PassOpsParts(w, m, n, q);
    if n > 0 {
      ChildOf(Bound, m, n);
      PlainChildrenNext(w, m, n - 1);
      ChildrenNothing(w, m, n - 1, q);
      PassNothing(PlainChildren(w, m, n - 1).0, m.submodules[n - 1], q);
    }
  }

  /** A pass does nothing to a queue that none of its modules can reach. */
  lemma {:induction false} PassNothing<T, L>(w: World<T, L>, m: Module<T, L>, q: SimQueue<T>)
    requires Tree(m) && Distinct(m)
    requires Modules(m) <= w.ms.Keys && q !in Seen(Bound, m) + Owned(m)
    ensures PassOps(w, m, q) == []
    decreases m.height, |m.submodules| + 1
  {
    hide *;
    InOwnModules(m);
    PassOpsParts(w, m, 0, q);
    OwnPorts(m, q);
    TurnNoWork(w, m, q);
    OwnedOnce(m.ownedQueues, q);
    ChildrenNothing(Visit(w, m).0, m, |m.submodules|, q);
  }

  lemma {:induction false} JoinNoWork<T>(a: seq<Op<T>>, b: seq<Op<T>>)
    requires NoWork(a) && NoWork(b)
    ensures NoWork(a + b)
  {
  }

  lemma {:induction false} NothingNoWork<T>()
    ensures NoWork<T>([])
  {
  }

  lemma {:induction false} ChildrenNoWork<T, L>(w: World<T, L>, m: Module<T, L>, n: nat, q: SimQueue<T>)
    requires Tree(m) && Distinct(m) && n <= |m.submodules|
    requires Modules(m) <= w.ms.Keys && q !in OwnedUpTo(m, n)
    ensures NoWork(ChildrenOps(w, m, n, q))
    decreases m.height, n
  {
    hide *;
    PassOpsParts(w, m, n, q);
    NothingNoWork<T>();
    if n > 0 {
      ChildOf(Bound, m, n);
      PlainChildrenNext(w, m, n - 1);
      ChildrenNoWork(w, m, n - 1, q);
      var v, c := PlainChildren(w, m, n - 1).0, m.submodules[n - 1];
      PassNoWork(v, c, q);
      JoinNoWork(ChildrenOps(w, m, n - 1, q), PassOps(v, c, q));
    }
  }

  /** Only the owner advances a queue. */
  lemma {:induction false} PassNoWork<T, L>(w: World<T, L>, m: Module<T, L>, q: SimQueue<T>)
    requires Tree(m) && Distinct(m)
    requires Modules(m) <= w.ms.Keys && q !in Owned(m)
    ensures NoWork(PassOps(w, m, q))
    decreases m.height, |m.submodules| + 1
  {
    hide *;
    InOwnModules(m);
    PassOpsParts(w, m, 0, q);
    OwnPorts(m, q);
    TurnNoWork(w, m, q);
    NothingNoWork<T>();
    OwnedOnce(m.ownedQueues, q);
    var n, v := |m.submodules|, Visit(w, m).0;
    ChildrenNoWork(v, m, n, q);
    JoinNoWork(TurnOps(w, m, q), ChildrenOps(v, m, n, q));
    JoinNoWork(TurnOps(w, m, q) + ChildrenOps(v, m, n, q), OwnedOps(m.ownedQueues, q));
  }

  lemma {:induction false} ChildrenEndInWork<T, L>(w: World<T, L>, m: Module<T, L>, n: nat, q: SimQueue<T>)
    returns (a: seq<Op<T>>)
    requires Tree(m) && Distinct(m) && Ordered(Bound, m) && n <= |m.submodules|
    requires Modules(m) <= w.ms.Keys && q in OwnedUpTo(m, n)
    ensures ChildrenOps(w, m, n, q) == a + [Op.Work] && NoWork(a)
    decreases m.height, n
  {
    hide *;
    OwnPorts(m, q);
    PassOpsParts(w, m, n, q);
    ChildOf(Bound, m, n);
    PlainChildrenNext(w, m, n - 1);
    var v, c := PlainChildren(w, m, n - 1).0, m.submodules[n - 1];
    if q in OwnedUpTo(m, n - 1) {
      a := ChildrenEndInWork(w, m, n - 1, q);
      PassNothing(v, c, q);
    } else {
      ChildrenNoWork(w, m, n - 1, q);
      var b := PassEndsInWork(v, c, q);
      a := ChildrenOps(w, m, n - 1, q) + b;
      JoinNoWork(ChildrenOps(w, m, n - 1, q), b);
      assert ChildrenOps(w, m, n - 1, q) + (b + [Op.Work]) == a + [Op.Work];
    }
  }

  /** In a tree in order the operations of a pass on a queue owned in it end with the queue's one own
      `Work`: every `WorkSelf` that can reach the queue comes before. */
  lemma {:induction false} PassEndsInWork<T, L>(w: World<T, L>, m: Module<T, L>, q: SimQueue<T>)
    returns (a: seq<Op<T>>)
    requires Tree(m) && Distinct(m) && Ordered(Bound, m)
    requires Modules(m) <= w.ms.Keys && q in Owned(m)
    ensures PassOps(w, m, q) == a + [Op.Work] && NoWork(a)
    decreases m.height, |m.submodules| + 1
  {
    hide *;
    InOwnModules(m);
    PassOpsParts(w, m, 0, q);
    OwnPorts(m, q);
    TurnNoWork(w, m, q);
    OwnedOnce(m.ownedQueues, q);
    var n, v, turn := |m.submodules|, Visit(w, m).0, TurnOps(w, m, q);
    if q in m.ownedQueues {
      ChildrenNoWork(v, m, n, q);
      a := turn + ChildrenOps(v, m, n, q);
      JoinNoWork(turn, ChildrenOps(v, m, n, q));
    } else {
      var b := ChildrenEndInWork(v, m, n, q);
      a := turn + b;
      JoinNoWork(turn, b);
      assert turn + (b + [Op.Work]) + [] == a + [Op.Work];
    }
  }

  lemma {:induction false} XferTurnNoWork<T, L>(w: World<T, L>, m: Module<T, L>, q: SimQueue?<T>)
    requires m in w.ms
    ensures NoWork(XferTurnOps(w, m, q))
  {
    OpsOnNoWork(m.Ports(), m.xferSelf(w.ms[m].local, Views(w, m.Ports())).ops, q);
  }

  lemma {:induction false} XferUpToNoWork<T, L>(w: World<T, L>, m: Module<T, L>, n: nat, q: SimQueue?<T>)
    requires Tree(m) && Modules(m) <= w.ms.Keys && Built(w) && ActiveInside(w) && m in w.active && n <= |w.active[m]|
    ensures NoWork(XferOpsUpTo(w, m, n, q))
    decreases m.height, n
  {
    hide *;
    NoXferEffect(w, m, q);
    NothingNoWork<T>();
    if n > 0 {
      XferOpsNext(w, m, n, q);
      XferUpToNoWork(w, m, n - 1, q);
      var a, v := w.active[m][n - 1], XferUpTo(w, m, n - 1).0;
      BuiltFacts(v);
      XferNoWork(v, a, q);
      JoinNoWork(XferOpsUpTo(w, m, n - 1, q), XferOps(v, a, q));
    }
  }

  lemma {:induction false} XferNoWork<T, L>(w: World<T, L>, m: Module<T, L>, q: SimQueue?<T>)
    requires Tree(m) && Modules(m) <= w.ms.Keys && Built(w) && ActiveInside(w) && m in w.active
    ensures NoWork(XferOps(w, m, q))
    decreases m.height, |w.active[m]| + 1
  {
    hide *;
    var w1 := XferOpsParts(w, m, q);
    BuiltFacts(w1);
    XferTurnNoWork(w, m, q);
    XferUpToNoWork(w1, m, |w.active[m]|, q);
    JoinNoWork(XferTurnOps(w, m, q), XferOpsUpTo(w1, m, |w.active[m]|, q));
  }

  // ---------- The same over several roots ----------

  lemma {:induction false} AllNoWork<T, L>(w: World<T, L>, roots: seq<Module<T, L>>, n: nat, q: SimQueue<T>)
    requires Registered(w, roots) && n <= |roots| && q !in OwnedOf(roots, n)
    ensures NoWork(AllOps(w, roots, n, q))
  {
    hide *;
    NoOpsYet(w, roots, q);
    NothingNoWork<T>();
    if n > 0 {
      RegisteredAt(w, roots, n - 1);
      ModulesOfNext(roots, n);
      AllNoWork(w, roots, n - 1, q);
      AllOpsNext(w, roots, n - 1, q);
      var v := PlainAll(w, roots, n - 1).0;
      PassNoWork(v, roots[n - 1], q);
      JoinNoWork(AllOps(w, roots, n - 1, q), PassOps(v, roots[n - 1], q));
    }
  }

  /** When all roots are in order, the operations of a whole `Work` on a queue owned in the system end with
      the queue's one own `Work`. */
  lemma {:induction false} AllEndInWork<T, L>(w: World<T, L>, roots: seq<Module<T, L>>, n: nat, q: SimQueue<T>)
    returns (a: seq<Op<T>>)
    requires Registered(w, roots) && Apart(roots) && AllOrdered(roots) && n <= |roots| && q in OwnedOf(roots, n)
    ensures AllOps(w, roots, n, q) == a + [Op.Work] && NoWork(a)
  {
    hide *;
    NoOpsYet(w, roots, q);
    NoRoots(roots);
    RegisteredAt(w, roots, n - 1);
    ApartAt(roots, n - 1);
    ModulesOfNext(roots, n);
    AllOrderedAt(roots, n - 1);
    AllOpsNext(w, roots, n - 1, q);
    var v, c := PlainAll(w, roots, n - 1).0, roots[n - 1];
    if q in OwnedOf(roots, n - 1) {
      a := AllEndInWork(w, roots, n - 1, q);
      PassNothing(v, c, q);
      assert a + [Op.Work] + [] == a + [Op.Work];
    } else {
      AllNoWork(w, roots, n - 1, q);
      var b := PassEndsInWork(v, c, q);
      a := AllOps(w, roots, n - 1, q) + b;
      JoinNoWork(AllOps(w, roots, n - 1, q), b);
      assert AllOps(w, roots, n - 1, q) + (b + [Op.Work]) == a + [Op.Work];
    }
  }

  lemma {:induction false} XferAllNoWork<T, L>(w: World<T, L>, roots: seq<Module<T, L>>, n: nat, q: SimQueue?<T>)
    requires Registered(w, roots) && n <= |roots|
    ensures NoWork(XferAllOps(w, roots, n, q))
  {
    hide *;
    NoOpsYet(w, roots, q);
    NothingNoWork<T>();
    if n > 0 {
      XferAllNoWork(w, roots, n - 1, q);
      AllOpsNext(w, roots, n - 1, q);
      var v := XferAll(w, roots, n - 1).0;
      XferNoWork(v, roots[n - 1], q);
      JoinNoWork(XferAllOps(w, roots, n - 1, q), XferOps(v, roots[n - 1], q));
    }
  }

  // ---------- What an observer of the queue counts ----------

  /** Nothing is flushed, reset or stalled, and the latency stays. */
  predicate Steady<T>(ops: seq<Op<T>>) {
    forall k :: 0 <= k < |ops| ==> !ops[k].FlushIf? && !ops[k].Reset? && !ops[k].SetStall? && !ops[k].SetLatency?
  }

  function Extend<T>(q: QState<T>, tr: Trace<T>, ops: seq<Op<T>>): Trace<T>
    requires Sound(q)
  {
    if ops == [] then tr
    else
      var before := ops[..|ops| - 1];
      Observe(Run(q, before), Extend(q, tr, before), ops[|ops| - 1])
  }

  lemma {:induction false} TraceSplit<T>(q: QState<T>, a: seq<Op<T>>, b: seq<Op<T>>)
    requires Sound(q)
    ensures TraceOf(q, a + b) == Extend(Run(q, a), TraceOf(q, a), b)
  {
    if b == [] {
      assert a + b == a;
    } else {
      var n := |b| - 1;
      TraceSplit(q, a, b[..n]);
      RunSplit(q, a, b[..n]);
      assert (a + b)[..|a + b| - 1] == a + b[..n];
    }
  }

  /** Entries written along work-free operations are stamped with the count of Works before them. */
  lemma {:induction false} ExtendStamps<T>(q: QState<T>, tr: Trace<T>, ops: seq<Op<T>>)
    requires Sound(q) && |tr.stamps| == |tr.written|
    ensures
      var tr' := Extend(q, tr, ops);
      && |tr'.stamps| == |tr'.written| && tr.stamps <= tr'.stamps && tr.written <= tr'.written
      && (NoWork(ops) ==>
            && tr'.works == tr.works
            && forall k :: |tr.stamps| <= k < |tr'.stamps| ==> tr'.stamps[k].at == tr.works)
  {
    hide Sound, WorkOf, FlushOf;
    if ops != [] {
      ExtendStamps(q, tr, ops[..|ops| - 1]);
    }
  }

  lemma {:induction false} SteadyParts<T>(a: seq<Op<T>>, b: seq<Op<T>>)
    ensures Steady(a + b) <==> Steady(a) && Steady(b)
  {
    if Steady(a + b) {
      assert forall k :: 0 <= k < |a| ==> a[k] == (a + b)[k];
      assert forall k :: 0 <= k < |b| ==> b[k] == (a + b)[|a| + k];
    }
  }

  lemma {:induction false} SteadyRun<T>(q: QState<T>, ops: seq<Op<T>>)
    requires Sound(q) && Steady(ops) && !q.stalled
    ensures !Run(q, ops).stalled
  {
    if ops != [] {
      SteadyRun(q, ops[..|ops| - 1]);
    }
  }

  /** One more Work: it is counted, and nothing is written. */
  lemma {:induction false} ExtendWork<T>(q: QState<T>, tr: Trace<T>)
    requires Sound(q) && !q.stalled
    ensures Extend(q, tr, [Op.Work]).works == tr.works + 1
    ensures Extend(q, tr, [Op.Work]).stamps == tr.stamps && Extend(q, tr, [Op.Work]).written == tr.written
  {
    var one: seq<Op<T>> := [Op.Work];
    assert one[..0] == [];
    assert Extend(q, tr, one[..0]) == tr && Run(q, one[..0]) == q;
  }

  ghost predicate Lengths<T>(tr: Trace<T>) {
    |tr.stamps| == |tr.written|
  }

  /** Along one cycle of the queue: stamps of its `WorkSelf` writes, then one Work, then stamps of its
      `XferSelf` writes. */
  lemma {:induction false} OneCycle<T>(q: QState<T>, done: seq<Op<T>>, a: seq<Op<T>>, x: seq<Op<T>>)
    requires Sound(q) && !q.stalled && Steady(done + (a + [Op.Work]) + x) && NoWork(a) && NoWork(x)
    requires Lengths(TraceOf(q, done))
    ensures
      var t0, t1, t2 := TraceOf(q, done), TraceOf(q, done + (a + [Op.Work])), TraceOf(q, done + (a + [Op.Work]) + x);
      && Lengths(t1) && Lengths(t2) && t0.stamps <= t1.stamps <= t2.stamps && t0.written <= t1.written <= t2.written
      && t1.works == t0.works + 1 && t2.works == t0.works + 1
      && (forall k :: |t0.stamps| <= k < |t1.stamps| ==> t1.stamps[k].at == t0.works)
      && (forall k :: |t1.stamps| <= k < |t2.stamps| ==> t2.stamps[k].at == t0.works + 1)
  {
    hide Run, Extend, TraceOf, Sound;
    var work: seq<Op<T>> := [Op.Work];
    var t0 := TraceOf(q, done);
    SteadyParts(done + (a + work), x);
    SteadyParts(done, a + work);
    SteadyParts(a, work);
    SteadyParts(done, a);
    SteadyRun(q, done + a);
    TraceSplit(q, done, a);
    ExtendStamps(Run(q, done), t0, a);
    assert done + (a + work) == (done + a) + work;
    TraceSplit(q, done + a, work);
    ExtendWork(Run(q, done + a), TraceOf(q, done + a));
    TraceSplit(q, done + (a + work), x);
    ExtendStamps(Run(q, done + (a + work)), TraceOf(q, done + (a + work)), x);
  }

  // ---------- Cycle by cycle ----------

  /** The trace of queue q at the start of cycle n. */
  ghost function TraceAt<T, L>(w: World<T, L>, roots: seq<Module<T, L>>, n: nat, q: SimQueue<T>): Trace<T>
    requires Registered(w, roots) && q in w.qs
  {
    TraceOf(w.qs[q], RunOps(w, roots, n, q))
  }

  /** The trace of queue q between `Work` and `Xfer` of cycle n. */
  ghost function TraceMid<T, L>(w: World<T, L>, roots: seq<Module<T, L>>, n: nat, q: SimQueue<T>): Trace<T>
    requires Registered(w, roots) && q in w.qs
  {
    TraceOf(w.qs[q], RunOps(w, roots, n, q) + WorkedOps(Cycles(w, roots, n), roots, q))
  }

  /** How the trace of an owned queue moves in cycle n. */
  ghost predicate CycleMoves<T>(t0: Trace<T>, t1: Trace<T>, t2: Trace<T>, n: nat) {
    && Lengths(t0) && Lengths(t1) && Lengths(t2)
    && t0.stamps <= t1.stamps <= t2.stamps && t0.written <= t1.written <= t2.written
    && t0.works == n && t2.works == n + 1
    && (forall k :: |t0.stamps| <= k < |t1.stamps| ==> t1.stamps[k].at == n)
    && (forall k :: |t1.stamps| <= k < |t2.stamps| ==> t2.stamps[k].at == n + 1)
  }

  /** A queue owned in a system in order, empty and running at the start. */
  ghost predicate Begins<T, L>(w: World<T, L>, roots: seq<Module<T, L>>, q: SimQueue<T>) {
    && Registered(w, roots) && Apart(roots) && AllOrdered(roots) && q in OwnedOf(roots, |roots|) && q in w.qs
    && w.qs[q].writeQ == w.qs[q].readQ == [] && !w.qs[q].stalled
  }

  lemma {:induction false} BeginsFacts<T, L>(w: World<T, L>, roots: seq<Module<T, L>>, q: SimQueue<T>)
    requires Begins(w, roots, q)
    ensures Registered(w, roots) && Apart(roots) && AllOrdered(roots) && Trees(roots) && q in OwnedOf(roots, |roots|)
    ensures q in w.qs && Sound(w.qs[q]) && !w.qs[q].stalled && w.qs[q].writeQ == w.qs[q].readQ == []
  {
  }

  lemma {:induction false} TracesAre<T, L>(w: World<T, L>, roots: seq<Module<T, L>>, n: nat, q: SimQueue<T>)
    requires Registered(w, roots) && q in w.qs
    ensures TraceAt(w, roots, n, q) == TraceOf(w.qs[q], RunOps(w, roots, n, q))
    ensures TraceMid(w, roots, n, q) ==
            TraceOf(w.qs[q], RunOps(w, roots, n, q) + WorkedOps(Cycles(w, roots, n), roots, q))
  {
    hide TraceOf, RunOps, WorkedOps, Cycles, Registered;
  }

  lemma {:induction false} FirstTrace<T, L>(w: World<T, L>, roots: seq<Module<T, L>>, q: SimQueue<T>)
    requires Registered(w, roots) && q in w.qs
    ensures Lengths(TraceAt(w, roots, 0, q)) && TraceAt(w, roots, 0, q).works == 0
  {
  }

  lemma {:induction false} MovesEnd<T>(t0: Trace<T>, t1: Trace<T>, t2: Trace<T>, n: nat)
    requires CycleMoves(t0, t1, t2, n)
    ensures Lengths(t2) && t2.works == n + 1
  {
  }

  lemma {:induction false} MakesMoves<T>(t0: Trace<T>, t1: Trace<T>, t2: Trace<T>, n: nat)
    requires Lengths(t0) && Lengths(t1) && Lengths(t2)
    requires t0.stamps <= t1.stamps <= t2.stamps && t0.written <= t1.written <= t2.written
    requires t0.works == n && t2.works == n + 1
    requires forall k :: |t0.stamps| <= k < |t1.stamps| ==> t1.stamps[k].at == n
    requires forall k :: |t1.stamps| <= k < |t2.stamps| ==> t2.stamps[k].at == n + 1
    ensures CycleMoves(t0, t1, t2, n)
  {
  }

  /** The queue's own clock is the cycle count: n of its Works are done when cycle n begins, so writes of
      a `WorkSelf` in cycle n are stamped n and those of an `XferSelf` n + 1. */
  lemma {:induction false} CycleClock<T, L>(w: World<T, L>, roots: seq<Module<T, L>>, n: nat, q: SimQueue<T>)
    requires Begins(w, roots, q) && Registered(w, roots) && q in w.qs && Steady(RunOps(w, roots, n + 1, q))
    ensures CycleMoves(TraceAt(w, roots, n, q), TraceMid(w, roots, n, q), TraceAt(w, roots, n + 1, q), n)
  {
    hide *;
    BeginsFacts(w, roots, q);
    CyclesRegistered(w, roots, n);
    CyclesRegistered(w, roots, n + 1);
    RunOpsNext(w, roots, n, q);
    var v, q0, done := Cycles(w, roots, n), w.qs[q], RunOps(w, roots, n, q);
    SteadyParts(done, CycleOps(v, roots, q));
    if n == 0 {
      FirstTrace(w, roots, q);
    } else {
      CycleClock(w, roots, n - 1, q);
      MovesEnd(TraceAt(w, roots, n - 1, q), TraceMid(w, roots, n - 1, q), TraceAt(w, roots, n, q), n - 1);
    }
    TracesAre(w, roots, n, q);
    TracesAre(w, roots, n + 1, q);
    CycleParts(v, roots, q);
    WorkWent(v, roots, q);
    var a := AllEndInWork(v, roots, |roots|, q);
    var x := XferAllOps(Worked(v, roots).0, roots, |roots|, q);
    XferAllNoWork(Worked(v, roots).0, roots, |roots|, q);
    assert done + ((a + [Op.Work]) + x) == done + (a + [Op.Work]) + x;
    OneCycle(q0, done, a, x);
    MakesMoves(TraceAt(w, roots, n, q), TraceMid(w, roots, n, q), TraceAt(w, roots, n + 1, q), n);
  }

  /** Later cycles add to the trace and change nothing in it. */
  lemma {:induction false} TraceGrows<T, L>(w: World<T, L>, roots: seq<Module<T, L>>, c: nat, n: nat, q: SimQueue<T>)
    requires Begins(w, roots, q) && Registered(w, roots) && q in w.qs && c <= n && n > 0
    requires Steady(RunOps(w, roots, n, q))
    ensures TraceAt(w, roots, c, q).stamps <= TraceAt(w, roots, n, q).stamps
    ensures TraceAt(w, roots, c, q).written <= TraceAt(w, roots, n, q).written
    ensures Lengths(TraceAt(w, roots, n, q)) && TraceAt(w, roots, n, q).works == n
    decreases n - c
  {
    hide *;
    BeginsFacts(w, roots, q);
    if c < n {
      SteadyBefore(w, roots, c + 1, n, q);
      CycleClock(w, roots, c, q);
      MovesGrow(TraceAt(w, roots, c, q), TraceMid(w, roots, c, q), TraceAt(w, roots, c + 1, q), c);
      TraceGrows(w, roots, c + 1, n, q);
      PrefixThen(TraceAt(w, roots, c, q), TraceAt(w, roots, c + 1, q), TraceAt(w, roots, n, q));
    } else {
      CycleClock(w, roots, n - 1, q);
      MovesEnd(TraceAt(w, roots, n - 1, q), TraceMid(w, roots, n - 1, q), TraceAt(w, roots, n, q), n - 1);
    }
  }

  lemma {:induction false} PrefixThen<T>(a: Trace<T>, b: Trace<T>, c: Trace<T>)
    requires a.stamps <= b.stamps <= c.stamps && a.written <= b.written <= c.written
    ensures a.stamps <= c.stamps && a.written <= c.written
  {
  }

  lemma {:induction false} MovesGrow<T>(t0: Trace<T>, t1: Trace<T>, t2: Trace<T>, n: nat)
    requires CycleMoves(t0, t1, t2, n)
    ensures t0.stamps <= t1.stamps <= t2.stamps && t0.written <= t1.written <= t2.written
    ensures Lengths(t0) && Lengths(t1) && Lengths(t2)
    ensures forall k :: |t0.stamps| <= k < |t1.stamps| ==> t2.stamps[k].at == n
    ensures forall k :: |t1.stamps| <= k < |t2.stamps| ==> t2.stamps[k].at == n + 1
  {
  }

  lemma {:induction false} SteadyBefore<T, L>(w: World<T, L>, roots: seq<Module<T, L>>, c: nat, n: nat, q: SimQueue<T>)
    requires Registered(w, roots) && c <= n && Steady(RunOps(w, roots, n, q))
    ensures Steady(RunOps(w, roots, c, q))
    decreases n - c
  {
    hide *;
    if c < n {
      SteadyBefore(w, roots, c + 1, n, q);
      RunOpsNext(w, roots, c, q);
      SteadyParts(RunOps(w, roots, c, q), CycleOps(Cycles(w, roots, c), roots, q));
    }
  }

  /** The cycle an entry becomes readable. In a system in order, on a queue with constant latency
      N that is neither flushed, reset nor stalled, an entry written by a `WorkSelf` in cycle c is on the
      read side at the start of cycle n exactly when n >= c + max(1, N); one written by an `XferSelf` in
      cycle c exactly when n >= c + 1 + max(1, N). */
  lemma {:induction false} ReadableFromCycle<T, L>(w: World<T, L>, roots: seq<Module<T, L>>, c: nat, n: nat, k: nat,
                                                   q: SimQueue<T>)
    requires Begins(w, roots, q) && Registered(w, roots) && q in w.qs && c < n && Steady(RunOps(w, roots, n, q))
    requires |TraceAt(w, roots, c, q).written| <= k < |TraceAt(w, roots, c + 1, q).written|
    ensures
      var tr, from := TraceAt(w, roots, n, q), if k < |TraceMid(w, roots, c, q).written| then c else c + 1;
      && k < |tr.written| && tr.taken <= tr.promoted <= |tr.written|
      && q in Cycles(w, roots, n).qs && Cycles(w, roots, n).qs[q].readQ == tr.written[tr.taken..tr.promoted]
      && (k < tr.promoted <==> n >= from + Max(1, w.qs[q].latency))
  {
    hide *;
    BeginsFacts(w, roots, q);
    var t0, t1, t2 := TraceAt(w, roots, c, q), TraceMid(w, roots, c, q), TraceAt(w, roots, c + 1, q);
    SteadyBefore(w, roots, c + 1, n, q);
    CycleClock(w, roots, c, q);
    MovesGrow(t0, t1, t2, c);
    TraceGrows(w, roots, c + 1, n, q);
    CyclesRegistered(w, roots, n);
    TracesAre(w, roots, n, q);
    SamePrefixes(t0, t1, t2, TraceAt(w, roots, n, q), c, k);
    RunWent(w, roots, n, q);
    WentAt(w, Cycles(w, roots, n), q, RunOps(w, roots, n, q));
    QAt(w, q);
    QAt(Cycles(w, roots, n), q);
    SteadyTiming(w.qs[q], RunOps(w, roots, n, q), k);
  }

  lemma {:induction false} SamePrefixes<T>(t0: Trace<T>, t1: Trace<T>, t2: Trace<T>, tr: Trace<T>, c: nat, k: nat)
    requires t0.stamps <= t1.stamps <= t2.stamps <= tr.stamps && t2.written <= tr.written
    requires Lengths(t0) && Lengths(t1) && Lengths(t2) && Lengths(tr) && |t0.written| <= k < |t2.written|
    requires forall k :: |t0.stamps| <= k < |t1.stamps| ==> t2.stamps[k].at == c
    requires forall k :: |t1.stamps| <= k < |t2.stamps| ==> t2.stamps[k].at == c + 1
    ensures k < |tr.written| && k < |tr.stamps|
    ensures tr.stamps[k].at == if k < |t1.written| then c else c + 1
  {
    assert tr.stamps[k] == t2.stamps[k];
  }

  lemma {:induction false} SteadyTiming<T>(q: QState<T>, ops: seq<Op<T>>, k: nat)
    requires Sound(q) && q.writeQ == q.readQ == [] && Steady(ops) && k < |TraceOf(q, ops).written|
    ensures
      var tr := TraceOf(q, ops);
      && |tr.stamps| == |tr.written| && tr.taken <= tr.promoted <= |tr.written|
      && Run(q, ops).readQ == tr.written[tr.taken..tr.promoted]
      && (k < tr.promoted <==> tr.works >= tr.stamps[k].at + Max(1, q.latency))
  {
    VisibleExactly(q, ops, k);
    ConstantLatencyExactly(q, ops, k);
  }
}
