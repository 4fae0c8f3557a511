/** What one pass does to one queue and to one module: the operations in order, and the module's turn. */
module PassHistory {
  import opened QueueSpec
  import opened SimQueues
  import opened Scheduler
  import opened SchedulerTheorems

  // ---------- The operations a pass makes on one queue ----------

  lemma {:induction false} RunSplit<T>(q: QState<T>, a: seq<Op<T>>, b: seq<Op<T>>)
    requires Sound(q)
    ensures Run(q, a + b) == Run(Run(q, a), b)
  {
    if b == [] {
      assert a + b == a;
    } else {
      RunSplit(q, a, b[..|b| - 1]);
      assert (a + b)[..|a + b| - 1] == a + b[..|b| - 1];
    }
  }

  ghost function OpOn<T>(ports: seq<SimQueue?<T>>, po: PortOp<T>, q: SimQueue?<T>): seq<Op<T>> {
    if q != null && !po.op.Work? && po.port < |ports| && ports[po.port] == q then [po.op] else []
  }

  /** Those of a module's operations that reach q. */
  ghost function OpsOn<T>(ports: seq<SimQueue?<T>>, ops: seq<PortOp<T>>, q: SimQueue?<T>): seq<Op<T>> {
    if ops == [] then [] else OpsOn(ports, ops[..|ops| - 1], q) + OpOn(ports, ops[|ops| - 1], q)
  }

  ghost function TurnOps<T, L>(w: World<T, L>, m: Module<T, L>, q: SimQueue?<T>): seq<Op<T>>
    requires m in w.ms
  {
    if HasEvent(w, m) then OpsOn(m.Ports(), m.workSelf(w.ms[m].local, Views(w, m.Ports())).ops, q) else []
  }

  ghost function OwnedOps<T>(qs: seq<SimQueue<T>>, q: SimQueue?<T>): seq<Op<T>> {
    if qs == [] then []
    else OwnedOps(qs[..|qs| - 1], q) + if qs[|qs| - 1] == q then [Op.Work] else []
  }

  ghost function ChildrenOps<T, L>(w: World<T, L>, m: Module<T, L>, n: nat, q: SimQueue?<T>): seq<Op<T>>
    requires Tree(m) && n <= |m.submodules| && Modules(m) <= w.ms.Keys
    decreases m.height, n
  {
    if n == 0 then []
    else
      InModules(m, n);
      ChildrenOps(w, m, n - 1, q) + PassOps(PlainChildren(w, m, n - 1).0, m.submodules[n - 1], q)
  }

  /** The operations made on q in one pass, in order: those of every `WorkSelf`, and its own `Work`. */
  ghost function PassOps<T, L>(w: World<T, L>, m: Module<T, L>, q: SimQueue?<T>): seq<Op<T>>
    requires Tree(m) && Modules(m) <= w.ms.Keys
    decreases m.height, |m.submodules| + 1
  {
    var w1 := Visit(w, m).0;
    PortRunKeys(w.qs, m.Ports(), m.workSelf(w.ms[m].local, Views(w, m.Ports())).ops);
    TurnOps(w, m, q) + ChildrenOps(w1, m, |m.submodules|, q) + OwnedOps(m.ownedQueues, q)
  }

  /** From w to w' queue q went through exactly these operations, and the maps kept their keys. */
  ghost predicate Went<T, L>(w: World<T, L>, w': World<T, L>, q: SimQueue?<T>, ops: seq<Op<T>>) {
    && w'.ms.Keys == w.ms.Keys && w'.qs.Keys == w.qs.Keys
    && (q != null && q in w.qs ==> w'.qs[q] == Run(w.qs[q], ops))
  }

  lemma {:induction false} WentThen<T, L>(a: World<T, L>, b: World<T, L>, c: World<T, L>, q: SimQueue?<T>,
                                          x: seq<Op<T>>, y: seq<Op<T>>)
    requires Went(a, b, q, x) && Went(b, c, q, y)
    ensures Went(a, c, q, x + y)
  {
    if q != null && q in a.qs {
      RunSplit(a.qs[q], x, y);
    }
  }

  lemma {:induction false} WentNowhere<T, L>(w: World<T, L>, q: SimQueue?<T>)
    ensures Went(w, w, q, [])
  {
  }

  lemma {:induction false} PortRunWent<T>(qs: Queues<T>, ports: seq<SimQueue?<T>>, ops: seq<PortOp<T>>, q: SimQueue?<T>)
    ensures PortRun(qs, ports, ops).Keys == qs.Keys
    ensures q != null && q in qs ==> PortRun(qs, ports, ops)[q] == Run(qs[q], OpsOn(ports, ops, q))
  {
    PortRunKeys(qs, ports, ops);
    if ops != [] && q != null && q in qs {
      var n := |ops| - 1;
      PortRunWent(qs, ports, ops[..n], q);
      PortRunKeys(qs, ports, ops[..n]);
      RunSplit(qs[q], OpsOn(ports, ops[..n], q), OpOn(ports, ops[n], q));
      OneOp(PortRun(qs, ports, ops[..n]), ports, ops[n], q);
    }
  }

  lemma {:induction false} OneOp<T>(qs: Queues<T>, ports: seq<SimQueue?<T>>, po: PortOp<T>, q: SimQueue?<T>)
    requires q != null && q in qs
    ensures PortApply(qs, ports, po).Keys == qs.Keys
    ensures PortApply(qs, ports, po)[q] == Run(qs[q], OpOn(ports, po, q))
  {
    assert [po.op][..0] == [];
  }

  lemma {:induction false} VisitWent<T, L>(w: World<T, L>, m: Module<T, L>, q: SimQueue?<T>)
    requires m in w.ms
    ensures Went(w, Visit(w, m).0, q, TurnOps(w, m, q))
  {
    PortRunWent(w.qs, m.Ports(), m.workSelf(w.ms[m].local, Views(w, m.Ports())).ops, q);
  }

  lemma {:induction false} OwnedWent<T, L>(w: World<T, L>, qs: seq<SimQueue<T>>, q: SimQueue?<T>)
    ensures Went(w, AdvanceOwned(w, qs).0, q, OwnedOps(qs, q))
  {
    AdvanceOwnedKeys(w, qs);
    if qs != [] && q != null && q in w.qs {
      var n := |qs| - 1;
      OwnedWent(w, qs[..n], q);
      AdvanceOwnedKeys(w, qs[..n]);
      RunSplit(w.qs[q], OwnedOps(qs[..n], q), if qs[n] == q then [Op.Work] else []);
      OneAdvance(AdvanceOwned(w, qs[..n]).0, qs[n], q);
    }
  }

  lemma {:induction false} OneAdvance<T, L>(w: World<T, L>, a: SimQueue<T>, q: SimQueue?<T>)
    requires q != null && q in w.qs
    ensures Advance(w, a).qs.Keys == w.qs.Keys
    ensures Advance(w, a).qs[q] == Run(w.qs[q], if a == q then [Op.Work] else [])
  {
    var one: seq<Op<T>> := [Op.Work];
    assert one[..0] == [];
  }

  lemma {:induction false} PassOpsParts<T, L>(w: World<T, L>, m: Module<T, L>, n: nat, q: SimQueue?<T>)
    requires Tree(m) && n <= |m.submodules| && Modules(m) <= w.ms.Keys
    ensures Visit(w, m).0.ms.Keys == w.ms.Keys
    ensures PassOps(w, m, q) ==
            TurnOps(w, m, q) + ChildrenOps(Visit(w, m).0, m, |m.submodules|, q) + OwnedOps(m.ownedQueues, q)
    ensures n == 0 ==> ChildrenOps(w, m, n, q) == []
    ensures n > 0 ==>
      && Tree(m.submodules[n - 1]) && Modules(m.submodules[n - 1]) <= w.ms.Keys
      && ChildrenOps(w, m, n, q) ==
         ChildrenOps(w, m, n - 1, q) + PassOps(PlainChildren(w, m, n - 1).0, m.submodules[n - 1], q)
  {
    PortRunKeys(w.qs, m.Ports(), m.workSelf(w.ms[m].local, Views(w, m.Ports())).ops);
    if n > 0 {
      InModules(m, n);
    }
  }

  lemma {:induction false} ChildrenWent<T, L>(w: World<T, L>, m: Module<T, L>, n: nat, q: SimQueue?<T>)
    requires Tree(m) && n <= |m.submodules| && Modules(m) <= w.ms.Keys
    ensures Went(w, PlainChildren(w, m, n).0, q, ChildrenOps(w, m, n, q))
    decreases m.height, n
  {
    hide *;
    PassOpsParts(w, m, n, q);
    if n == 0 {
      NothingLogged(w, m);
      WentNowhere(w, q);
    } else {
      ChildrenWent(w, m, n - 1, q);
      PlainChildrenNext(w, m, n - 1);
      var w1 := PlainChildren(w, m, n - 1).0;
      PassWent(w1, m.submodules[n - 1], q);
      WentThen(w, w1, PlainChildren(w, m, n).0, q,
               ChildrenOps(w, m, n - 1, q), PassOps(w1, m.submodules[n - 1], q));
    }
  }

  /** A pass takes each queue through exactly its operations. */
  lemma {:induction false} PassWent<T, L>(w: World<T, L>, m: Module<T, L>, q: SimQueue?<T>)
    requires Tree(m) && Modules(m) <= w.ms.Keys
    ensures Went(w, PlainPass(w, m).0, q, PassOps(w, m, q))
    decreases m.height, |m.submodules| + 1
  {
    hide *;
    InOwnModules(m);
    PassOpsParts(w, m, 0, q);
    var w1, w2 := PlainStages(w, m);
    var n := |m.submodules|;
    VisitWent(w, m, q);
    ChildrenWent(w1, m, n, q);
    OwnedWent(w2, m.ownedQueues, q);
    WentThen(w, w1, w2, q, TurnOps(w, m, q), ChildrenOps(w1, m, n, q));
    WentThen(w, w2, PlainPass(w, m).0, q,
             TurnOps(w, m, q) + ChildrenOps(w1, m, n, q), OwnedOps(m.ownedQueues, q));
  }

  // ---------- One module's turn in a pass ----------

  /** A stage that leaves module x and its calls out. */
  ghost predicate Without<T, L>(w: World<T, L>, r: (World<T, L>, seq<Event<T, L>>), x: Module<T, L>) {
    && r.0.ms.Keys == w.ms.Keys && (x in w.ms ==> r.0.ms[x] == w.ms[x])
    && forall i :: 0 <= i < |r.1| && r.1[i].Ran? ==> r.1[i].m != x
  }

  /** The stage r holds the turn of x, in world u, after the operations `pre` on q: x is visited as it
      was, runs exactly when it has an event there, and is left as that visit leaves it. */
  ghost predicate TurnAt<T, L>(w: World<T, L>, r: (World<T, L>, seq<Event<T, L>>), ops: seq<Op<T>>,
                               x: Module<T, L>, q: SimQueue?<T>, u: World<T, L>, pre: seq<Op<T>>) {
    && x in w.ms && x in u.ms && x in r.0.ms && u.ms[x] == w.ms[x] && r.0.ms[x] == Visit(u, x).0.ms[x]
    && Went(w, u, q, pre) && pre + TurnOps(u, x, q) <= ops && r.0.ms.Keys == w.ms.Keys && r.0.qs.Keys == w.qs.Keys
    && (forall i :: 0 <= i < |r.1| && r.1[i].Ran? && r.1[i].m == x ==> r.1[i] == CallOf(u, x, SelfTurn(u, x).qs))
    && (HasEvent(u, x) <==> exists i :: 0 <= i < |r.1| && r.1[i].Ran? && r.1[i].m == x)
  }

  lemma {:induction false} WithoutThen<T, L>(w: World<T, L>, r1: (World<T, L>, seq<Event<T, L>>),
                                             r2: (World<T, L>, seq<Event<T, L>>), x: Module<T, L>)
    requires Without(w, r1, x) && Without(r1.0, r2, x)
    ensures Without(w, (r2.0, r1.1 + r2.1), x)
  {
  }

  lemma {:induction false} TurnLater<T, L>(
    w: World<T, L>, r1: (World<T, L>, seq<Event<T, L>>), ops1: seq<Op<T>>,
    r2: (World<T, L>, seq<Event<T, L>>), ops2: seq<Op<T>>,
    x: Module<T, L>, q: SimQueue?<T>, u: World<T, L>, pre: seq<Op<T>>)
    requires Without(w, r1, x) && Went(w, r1.0, q, ops1) && TurnAt(r1.0, r2, ops2, x, q, u, pre)
    ensures TurnAt(w, (r2.0, r1.1 + r2.1), ops1 + ops2, x, q, u, ops1 + pre)
  {
    hide Visit, SelfTurn, TurnOps, HasEvent;
    WentThen(w, r1.0, u, q, ops1, pre);
    var log := r1.1 + r2.1;
    assert ops1 + pre + TurnOps(u, x, q) == ops1 + (pre + TurnOps(u, x, q));
    assert forall i :: 0 <= i < |r2.1| ==> log[|r1.1| + i] == r2.1[i];
    if i :| 0 <= i < |log| && log[i].Ran? && log[i].m == x {
      assert i >= |r1.1| && r2.1[i - |r1.1|] == log[i];
    }
  }

  lemma {:induction false} TurnEarlier<T, L>(
    w: World<T, L>, r1: (World<T, L>, seq<Event<T, L>>), ops1: seq<Op<T>>,
    r2: (World<T, L>, seq<Event<T, L>>), ops2: seq<Op<T>>,
    x: Module<T, L>, q: SimQueue?<T>, u: World<T, L>, pre: seq<Op<T>>)
    requires TurnAt(w, r1, ops1, x, q, u, pre) && Without(r1.0, r2, x) && r2.0.qs.Keys == r1.0.qs.Keys
    ensures TurnAt(w, (r2.0, r1.1 + r2.1), ops1 + ops2, x, q, u, pre)
  {
    hide Visit, SelfTurn, TurnOps, HasEvent, Went;
    var log := r1.1 + r2.1;
    assert forall i :: 0 <= i < |log| ==> log[i] == if i < |r1.1| then r1.1[i] else r2.1[i - |r1.1|];
    if i :| 0 <= i < |log| && log[i].Ran? && log[i].m == x {
      assert i < |r1.1| && r1.1[i] == log[i];
    }
  }

  lemma {:induction false} VisitWithout<T, L>(w: World<T, L>, m: Module<T, L>, x: Module<T, L>)
    requires m in w.ms && x != m
    ensures Without(w, Visit(w, m), x)
  {
  }

  lemma {:induction false} OwnedWithout<T, L>(w: World<T, L>, qs: seq<SimQueue<T>>, x: Module<T, L>)
    ensures Without(w, AdvanceOwned(w, qs), x)
  {
    AdvanceOwnedKeys(w, qs);
    if qs != [] {
      OwnedWithout(w, qs[..|qs| - 1], x);
      AdvanceOwnedKeys(w, qs[..|qs| - 1]);
    }
  }

  lemma {:induction false} ChildPlaceOf<T, L>(m: Module<T, L>, n: nat, x: Module<T, L>)
    requires Tree(m) && Distinct(m) && 0 < n <= |m.submodules|
    ensures
      var c := m.submodules[n - 1];
      && Tree(c) && Distinct(c) && c.height < m.height && Modules(c) <= Modules(m)
      && (x in ModulesUpTo(m, n) <==> x in ModulesUpTo(m, n - 1) || x in Modules(c))
      && !(x in ModulesUpTo(m, n - 1) && x in Modules(c))
    ensures m !in ModulesUpTo(m, n) && ModulesUpTo(m, n) <= Modules(m)
    ensures x in Modules(m) <==> x == m || x in ModulesUpTo(m, |m.submodules|)
  {
    InModules(m, n);
    ModulesUpToGrow(m, n, |m.submodules|);
    assert Distinct(m.submodules[n - 1]);
  }

  lemma {:induction false} NobodyThere<T, L>(w: World<T, L>, m: Module<T, L>, x: Module<T, L>)
    requires Tree(m) && Distinct(m) && Modules(m) <= w.ms.Keys
    ensures Without(w, PlainChildren(w, m, 0), x) && x !in ModulesUpTo(m, 0) && PlainChildren(w, m, 0) == (w, [])
    ensures x in Modules(m) <==> x == m || x in ModulesUpTo(m, |m.submodules|)
    ensures m !in ModulesUpTo(m, |m.submodules|) && m in Modules(m)
  {
  }

  lemma {:induction false} ChildrenWithout<T, L>(w: World<T, L>, m: Module<T, L>, n: nat, x: Module<T, L>)
    requires Tree(m) && Distinct(m) && n <= |m.submodules| && Modules(m) <= w.ms.Keys && x !in ModulesUpTo(m, n)
    ensures Without(w, PlainChildren(w, m, n), x)
    decreases m.height, n
  {
    hide *;
    if n == 0 {
      NobodyThere(w, m, x);
    } else {
      ChildPlaceOf(m, n, x);
      ChildrenWithout(w, m, n - 1, x);
      PlainChildrenNext(w, m, n - 1);
      var r1 := PlainChildren(w, m, n - 1);
      PassWithout(r1.0, m.submodules[n - 1], x);
      WithoutThen(w, r1, PlainPass(r1.0, m.submodules[n - 1]), x);
    }
  }

  /** A pass over a subtree leaves every other module alone. */
  lemma {:induction false} PassWithout<T, L>(w: World<T, L>, m: Module<T, L>, x: Module<T, L>)
    requires Tree(m) && Distinct(m) && Modules(m) <= w.ms.Keys && x !in Modules(m)
    ensures Without(w, PlainPass(w, m), x)
    decreases m.height, |m.submodules| + 1
  {
    hide *;
    NobodyThere(w, m, x);
    var w1, w2 := PlainStages(w, m);
    var n := |m.submodules|;
    var r1, r2, r3 := Visit(w, m), PlainChildren(w1, m, n), AdvanceOwned(w2, m.ownedQueues);
    VisitWithout(w, m, x);
    ChildrenWithout(w1, m, n, x);
    OwnedWithout(w2, m.ownedQueues, x);
    WithoutThen(w, r1, r2, x);
    WithoutThen(w, (w2, r1.1 + r2.1), r3, x);
  }

  lemma {:induction false} TurnHere<T, L>(w: World<T, L>, m: Module<T, L>, q: SimQueue?<T>)
    requires m in w.ms
    ensures TurnAt(w, Visit(w, m), TurnOps(w, m, q), m, q, w, [])
  {
    VisitWent(w, m, q);
    assert [] + TurnOps(w, m, q) == TurnOps(w, m, q);
    if HasEvent(w, m) {
      assert Visit(w, m).1[0].Ran? && Visit(w, m).1[0].m == m;
    }
  }

  lemma {:induction false} TurnInChildren<T, L>(w: World<T, L>, m: Module<T, L>, n: nat, x: Module<T, L>,
                                                q: SimQueue?<T>)
    returns (u: World<T, L>, pre: seq<Op<T>>)
    requires Tree(m) && Distinct(m) && n <= |m.submodules| && Modules(m) <= w.ms.Keys
    requires x in ModulesUpTo(m, n) && x in w.ms
    ensures TurnAt(w, PlainChildren(w, m, n), ChildrenOps(w, m, n, q), x, q, u, pre)
    decreases m.height, n
  {
    hide *;
    NobodyThere(w, m, x);
    ChildPlaceOf(m, n, x);
    PassOpsParts(w, m, n, q);
    PlainChildrenNext(w, m, n - 1);
    var c, r1, ops1 := m.submodules[n - 1], PlainChildren(w, m, n - 1), ChildrenOps(w, m, n - 1, q);
    var r2, ops2 := PlainPass(r1.0, c), PassOps(r1.0, c, q);
    if x in ModulesUpTo(m, n - 1) {
      u, pre := TurnInChildren(w, m, n - 1, x, q);
      PassWithout(r1.0, c, x);
      TurnEarlier(w, r1, ops1, r2, ops2, x, q, u, pre);
    } else {
      ChildrenWithout(w, m, n - 1, x);
      ChildrenWent(w, m, n - 1, q);
      WentFacts(w, r1.0, q, ops1);
      u, pre := TurnInPass(r1.0, c, x, q);
      TurnLater(w, r1, ops1, r2, ops2, x, q, u, pre);
      pre := ops1 + pre;
    }
  }

  lemma {:induction false} WentFacts<T, L>(w: World<T, L>, w': World<T, L>, q: SimQueue?<T>, ops: seq<Op<T>>)
    requires Went(w, w', q, ops)
    ensures w'.ms.Keys == w.ms.Keys && w'.qs.Keys == w.qs.Keys
  {
  }

  /** Every module has its one turn in a pass, in a world reached from the start by a first part of the
      operations on q. */
  lemma {:induction false} TurnInPass<T, L>(w: World<T, L>, m: Module<T, L>, x: Module<T, L>, q: SimQueue?<T>)
    returns (u: World<T, L>, pre: seq<Op<T>>)
    requires Tree(m) && Distinct(m) && Modules(m) <= w.ms.Keys && x in Modules(m)
    ensures TurnAt(w, PlainPass(w, m), PassOps(w, m, q), x, q, u, pre)
    decreases m.height, |m.submodules| + 1
  {
    hide *;
    InOwnModules(m);
    NobodyThere(w, m, m);
    NobodyThere(w, m, x);
    PassOpsParts(w, m, 0, q);
    var w1, w2 := PlainStages(w, m);
    var n := |m.submodules|;
    var r1, r2, r3 := Visit(w, m), PlainChildren(w1, m, n), AdvanceOwned(w2, m.ownedQueues);
    var ops1, ops2, ops3 := TurnOps(w, m, q), ChildrenOps(w1, m, n, q), OwnedOps(m.ownedQueues, q);
    OwnedWithout(w2, m.ownedQueues, x);
    VisitWent(w, m, q);
    ChildrenWent(w1, m, n, q);
    OwnedWent(w2, m.ownedQueues, q);
    WentFacts(w1, w2, q, ops2);
    WentFacts(w2, r3.0, q, ops3);
    if x == m {
      u, pre := w, [];
      TurnHere(w, m, q);
      ChildrenWithout(w1, m, n, m);
      TurnEarlier(w, r1, ops1, r2, ops2, x, q, u, pre);
    } else {
      VisitWithout(w, m, x);
      u, pre := TurnInChildren(w1, m, n, x, q);
      TurnLater(w, r1, ops1, r2, ops2, x, q, u, pre);
      pre := ops1 + pre;
    }
    TurnEarlier(w, (w2, r1.1 + r2.1), ops1 + ops2, r3, ops3, x, q, u, pre);
  }

  lemma {:induction false} CallsAreRuns<T, L>(log: seq<Event<T, L>>, x: Module<T, L>)
    ensures x in Calls(log) <==> exists i :: 0 <= i < |log| && log[i].Ran? && log[i].m == x
  {
    if log != [] {
      var n := |log| - 1;
      CallsAreRuns(log[..n], x);
      assert x in Calls(log) <==> x in Calls(log[..n]) || (log[n].Ran? && log[n].m == x);
      if i :| 0 <= i < |log| && log[i].Ran? && log[i].m == x {
        assert i < n ==> log[..n][i] == log[i];
      }
    }
  }
}

/** Cycle after cycle: `Work` on every registered root in order, then `Xfer` on every one. */
module SystemCycles {
  import opened QueueSpec
  import opened SimQueues
  import opened Scheduler
  import opened SchedulerTheorems
  import opened Wiring
  import opened WorkXferPairing
  import opened PassHistory

  // ---------- Several roots ----------

  ghost predicate Trees<T, L>(roots: seq<Module<T, L>>) {
    forall i {:trigger roots[i]} :: 0 <= i < |roots| ==> Tree(roots[i])
  }

  /** The modules of the first n roots. */
  ghost function ModulesOf<T, L>(roots: seq<Module<T, L>>, n: nat): set<Module<T, L>>
    requires Trees(roots) && n <= |roots|
  {
    if n == 0 then {} else ModulesOf(roots, n - 1) + Modules(roots[n - 1])
  }

  /** The queues owned by the first n roots and below. */
  ghost function OwnedOf<T, L>(roots: seq<Module<T, L>>, n: nat): set<SimQueue<T>>
    requires Trees(roots) && n <= |roots|
  {
    if n == 0 then {} else OwnedOf(roots, n - 1) + Owned(roots[n - 1])
  }

  /** No module and no owned queue belongs to two roots. */
  ghost predicate Apart<T, L>(roots: seq<Module<T, L>>) {
    && Trees(roots)
    && forall k {:trigger roots[k]} :: 0 <= k < |roots| ==>
         Modules(roots[k]) !! ModulesOf(roots, k) && Owned(roots[k]) !! OwnedOf(roots, k)
  }

  /** Each root is a tree with unique owners, and the active lists, whatever an earlier cycle left in them,
      name children of their module. */
  ghost predicate Registered<T, L>(w: World<T, L>, roots: seq<Module<T, L>>) {
    && Built(w) && Trees(roots)
    && forall i {:trigger roots[i]} :: 0 <= i < |roots| ==> Distinct(roots[i]) && Modules(roots[i]) <= w.ms.Keys
  }

  lemma {:induction false} RegisteredAt<T, L>(w: World<T, L>, roots: seq<Module<T, L>>, i: nat)
    requires Registered(w, roots) && i < |roots|
    ensures Built(w) && Tree(roots[i]) && Distinct(roots[i]) && Modules(roots[i]) <= w.ms.Keys
    ensures ActiveInside(w) && roots[i] in w.active && roots[i] in w.ms && Trees(roots)
  {
    InOwnModules(roots[i]);
  }

  lemma {:induction false} ApartAt<T, L>(roots: seq<Module<T, L>>, k: nat)
    requires Apart(roots) && k < |roots|
    ensures Trees(roots) && Tree(roots[k])
    ensures Modules(roots[k]) !! ModulesOf(roots, k) && Owned(roots[k]) !! OwnedOf(roots, k)
    ensures ModulesOf(roots, k + 1) == ModulesOf(roots, k) + Modules(roots[k])
    ensures OwnedOf(roots, k + 1) == OwnedOf(roots, k) + Owned(roots[k])
  {
  }

  lemma {:induction false} NoRoots<T, L>(roots: seq<Module<T, L>>)
    requires Trees(roots)
    ensures ModulesOf(roots, 0) == {} && OwnedOf(roots, 0) == {}
  {
  }

  lemma {:induction false} RootModules<T, L>(roots: seq<Module<T, L>>, i: nat, n: nat)
    requires Trees(roots) && i < n <= |roots|
    ensures Modules(roots[i]) <= ModulesOf(roots, n) && Owned(roots[i]) <= OwnedOf(roots, n)
  {
    if i + 1 < n {
      RootModules(roots, i, n - 1);
    }
  }

  lemma {:induction false} ModulesKnown<T, L>(w: World<T, L>, roots: seq<Module<T, L>>, n: nat)
    requires Registered(w, roots) && n <= |roots|
    ensures Trees(roots) && ModulesOf(roots, n) <= w.ms.Keys
  {
    hide Built, Distinct, Modules;
    if n > 0 {
      ModulesKnown(w, roots, n - 1);
      RegisteredAt(w, roots, n - 1);
    }
  }

  lemma {:induction false} RootOf<T, L>(roots: seq<Module<T, L>>, n: nat, x: Module<T, L>) returns (r: nat)
    requires Trees(roots) && n <= |roots| && x in ModulesOf(roots, n)
    ensures r < n && Tree(roots[r]) && x in Modules(roots[r])
  {
    hide Modules;
    if x in ModulesOf(roots, n - 1) {
      r := RootOf(roots, n - 1, x);
    } else {
      r := n - 1;
    }
  }

  lemma {:induction false} OtherRoots<T, L>(roots: seq<Module<T, L>>, i: nat, j: nat)
    requires Apart(roots) && i < |roots| && j < |roots| && i != j
    ensures Tree(roots[i]) && Tree(roots[j])
    ensures Modules(roots[i]) !! Modules(roots[j]) && Owned(roots[i]) !! Owned(roots[j])
  {
    hide Modules, Owned;
    if i < j {
      ApartAt(roots, j);
      RootModules(roots, i, j);
    } else {
      ApartAt(roots, i);
      RootModules(roots, j, i);
    }
  }

  lemma {:induction false} StillRegistered<T, L>(w: World<T, L>, w': World<T, L>, roots: seq<Module<T, L>>)
    requires Registered(w, roots) && Built(w') && w'.ms.Keys == w.ms.Keys
    ensures Registered(w', roots)
  {
  }

  lemma {:induction false} WorkRegistered<T, L>(w: World<T, L>, roots: seq<Module<T, L>>, i: nat)
    requires Registered(w, roots) && i < |roots|
    ensures Modules(roots[i]) <= w.ms.Keys && Tree(roots[i]) && Registered(WorkPass(w, roots[i]).0, roots)
    ensures OnlyIn(w, WorkPass(w, roots[i]).0, Modules(roots[i])) && WorkPass(w, roots[i]).0.ms.Keys == w.ms.Keys
  {
    hide WorkPass;
    RegisteredAt(w, roots, i);
    WorkFrame(w, roots[i]);
    StillRegistered(w, WorkPass(w, roots[i]).0, roots);
  }

  lemma {:induction false} XferRegistered<T, L>(w: World<T, L>, roots: seq<Module<T, L>>, i: nat)
    requires Registered(w, roots) && i < |roots|
    ensures Tree(roots[i]) && Modules(roots[i]) <= w.ms.Keys && ActiveInside(w) && roots[i] in w.active
    ensures Registered(XferPass(w, roots[i]).0, roots) && SameRuns(w, XferPass(w, roots[i]).0, w.ms.Keys)
    ensures XferPass(w, roots[i]).0.ms.Keys == w.ms.Keys
  {
    RegisteredAt(w, roots, i);
    XferKeepsRuns(w, roots[i]);
  }

  ghost function WorkRoot<T, L>(w: World<T, L>, roots: seq<Module<T, L>>, i: nat)
    : (r: (World<T, L>, seq<Event<T, L>>))
    requires Registered(w, roots) && i < |roots|
    ensures Registered(r.0, roots) && r.0.ms.Keys == w.ms.Keys && r.0.qs.Keys == w.qs.Keys
  {
    WorkRegistered(w, roots, i);
    WorkPass(w, roots[i])
  }

  /** `Work` on the first n roots. */
  ghost function WorkAll<T, L>(w: World<T, L>, roots: seq<Module<T, L>>, n: nat)
    : (r: (World<T, L>, seq<Event<T, L>>))
    requires Registered(w, roots) && n <= |roots|
    ensures Registered(r.0, roots) && r.0.ms.Keys == w.ms.Keys && r.0.qs.Keys == w.qs.Keys
  {
    if n == 0 then (w, [])
    else
      var (w1, log1) := WorkAll(w, roots, n - 1);
      var (w2, log2) := WorkRoot(w1, roots, n - 1);
      (w2, log1 + log2)
  }

  /** The plain pass over the first n roots. */
  ghost function PlainAll<T, L>(w: World<T, L>, roots: seq<Module<T, L>>, n: nat)
    : (r: (World<T, L>, seq<Event<T, L>>))
    requires Registered(w, roots) && n <= |roots|
    ensures r.0.ms.Keys == w.ms.Keys && r.0.qs.Keys == w.qs.Keys
  {
    if n == 0 then (w, [])
    else
      var (w1, log1) := PlainAll(w, roots, n - 1);
      var (w2, log2) := PlainPass(w1, roots[n - 1]);
      (w2, log1 + log2)
  }

  /** `Xfer` on the first n roots. */
  ghost function XferAll<T, L>(w: World<T, L>, roots: seq<Module<T, L>>, n: nat)
    : (r: (World<T, L>, seq<Event<T, L>>))
    requires Registered(w, roots) && n <= |roots|
    ensures Registered(r.0, roots) && r.0.ms.Keys == w.ms.Keys && r.0.qs.Keys == w.qs.Keys
  {
    if n == 0 then (w, [])
    else
      var (w1, log1) := XferAll(w, roots, n - 1);
      XferRegistered(w1, roots, n - 1);
      var (w2, log2) := XferPass(w1, roots[n - 1]);
      (w2, log1 + log2)
  }

  lemma {:induction false} WorkAllNext<T, L>(w: World<T, L>, roots: seq<Module<T, L>>, n: nat)
    requires Registered(w, roots) && n < |roots|
    ensures
      var v := WorkAll(w, roots, n).0;
      && Registered(v, roots) && Built(v) && Tree(roots[n]) && Distinct(roots[n]) && Modules(roots[n]) <= v.ms.Keys
      && WorkAll(w, roots, 0) == (w, [])
      && WorkAll(w, roots, n + 1).0 == WorkPass(v, roots[n]).0
      && WorkAll(w, roots, n + 1).1 == WorkAll(w, roots, n).1 + WorkPass(v, roots[n]).1
  {
    hide WorkPass;
    RegisteredAt(WorkAll(w, roots, n).0, roots, n);
  }

  lemma {:induction false} PlainAllNext<T, L>(w: World<T, L>, roots: seq<Module<T, L>>, n: nat)
    requires Registered(w, roots) && n < |roots|
    ensures
      var v := PlainAll(w, roots, n).0;
      && v.ms.Keys == w.ms.Keys && v.qs.Keys == w.qs.Keys && Tree(roots[n]) && Modules(roots[n]) <= v.ms.Keys
      && PlainAll(w, roots, 0) == (w, [])
      && PlainAll(w, roots, n + 1).0 == PlainPass(v, roots[n]).0
      && PlainAll(w, roots, n + 1).1 == PlainAll(w, roots, n).1 + PlainPass(v, roots[n]).1
  {
    hide PlainPass;
  }

  lemma {:induction false} XferAllNext<T, L>(w: World<T, L>, roots: seq<Module<T, L>>, n: nat)
    requires Registered(w, roots) && n < |roots|
    ensures
      var v := XferAll(w, roots, n).0;
      && Registered(v, roots) && Built(v) && ActiveInside(v) && Tree(roots[n]) && Modules(roots[n]) <= v.ms.Keys
      && roots[n] in v.active
      && XferAll(w, roots, 0) == (w, [])
      && XferAll(w, roots, n + 1).0 == XferPass(v, roots[n]).0
      && XferAll(w, roots, n + 1).1 == XferAll(w, roots, n).1 + XferPass(v, roots[n]).1
  {
    hide XferPass;
    RegisteredAt(XferAll(w, roots, n).0, roots, n);
  }

  lemma {:induction false} NothingYet<T, L>(w: World<T, L>, roots: seq<Module<T, L>>)
    requires Registered(w, roots)
    ensures WorkAll(w, roots, 0) == (w, []) && PlainAll(w, roots, 0) == (w, []) && XferAll(w, roots, 0) == (w, [])
    ensures Agree(w, w) && SameRuns(w, w, w.ms.Keys)
  {
  }

  lemma {:induction false} WorldKeys<T, L>(w: World<T, L>, roots: seq<Module<T, L>>, n: nat)
    requires Registered(w, roots) && n <= |roots|
    ensures WorkAll(w, roots, n).0.ms.Keys == w.ms.Keys && Registered(WorkAll(w, roots, n).0, roots)
    ensures WorkAll(w, roots, n).0.qs.Keys == w.qs.Keys
    ensures XferAll(w, roots, n).0.ms.Keys == w.ms.Keys && Registered(XferAll(w, roots, n).0, roots)
    ensures XferAll(w, roots, n).0.qs.Keys == w.qs.Keys
    ensures PlainAll(w, roots, n).0.ms.Keys == w.ms.Keys && PlainAll(w, roots, n).0.qs.Keys == w.qs.Keys
  {
  }

  /** What skipping leaves out has no effect, for every wiring and any number of roots. */
  lemma {:induction false} WorkAllIsPlain<T, L>(w: World<T, L>, roots: seq<Module<T, L>>, n: nat)
    requires Registered(w, roots) && n <= |roots|
    ensures Agree(WorkAll(w, roots, n).0, PlainAll(w, roots, n).0)
    ensures WorkAll(w, roots, n).1 == PlainAll(w, roots, n).1
  {
    hide *;
    WorldKeys(w, roots, n);
    if n == 0 {
      NothingYet(w, roots);
    } else {
      RegisteredAt(w, roots, n - 1);
      WorkAllIsPlain(w, roots, n - 1);
      WorkAllNext(w, roots, n - 1);
      PlainAllNext(w, roots, n - 1);
      WorkIsPlain(WorkAll(w, roots, n - 1).0, PlainAll(w, roots, n - 1).0, roots[n - 1]);
    }
  }

  // ---------- Pairing over all roots ----------

  /** The later roots' passes leave an earlier root's flags and active lists alone. */
  lemma {:induction false} LaterRootsKeep<T, L>(w: World<T, L>, roots: seq<Module<T, L>>, i: nat, n: nat)
    requires Registered(w, roots) && Apart(roots) && i < n <= |roots| && Tree(roots[i])
    ensures SameRuns(WorkAll(w, roots, i + 1).0, WorkAll(w, roots, n).0, Modules(roots[i]))
    decreases n
  {
    hide *;
    WorkAllNext(w, roots, i);
    WorldKeys(w, roots, i + 1);
    RegisteredAt(w, roots, i);
    if n == i + 1 {
      SameAsItself(WorkAll(w, roots, n).0, Modules(roots[i]));
    } else {
      LaterRootsKeep(w, roots, i, n - 1);
      WorkAllNext(w, roots, n - 1);
      OtherRoots(roots, n - 1, i);
      var v := WorkAll(w, roots, n - 1).0;
      WorldKeys(w, roots, n - 1);
      WorkRegistered(v, roots, n - 1);
      OutsideSameRuns(v, WorkAll(w, roots, n).0, Modules(roots[n - 1]), Modules(roots[i]));
      SameRunsThen(WorkAll(w, roots, i + 1).0, v, WorkAll(w, roots, n).0, Modules(roots[i]));
    }
  }

  lemma {:induction false} SameAsItself<T, L>(w: World<T, L>, ms: set<Module<T, L>>)
    requires Built(w) && ms <= w.ms.Keys
    ensures SameRuns(w, w, ms)
  {
  }

  lemma {:induction false} XferAllKeepsRuns<T, L>(w: World<T, L>, roots: seq<Module<T, L>>, n: nat)
    requires Registered(w, roots) && n <= |roots|
    ensures SameRuns(w, XferAll(w, roots, n).0, w.ms.Keys) && XferAll(w, roots, n).0.ms.Keys == w.ms.Keys
  {
    hide *;
    if n == 0 {
      NothingYet(w, roots);
    } else {
      XferAllKeepsRuns(w, roots, n - 1);
      XferAllNext(w, roots, n - 1);
      var v := XferAll(w, roots, n - 1).0;
      XferRegistered(v, roots, n - 1);
      SameRunsThen(w, v, XferAll(w, roots, n).0, w.ms.Keys);
    }
  }

  /** What root n contributes to the Xfer of the system is what an Xfer right after its own `Work` would. */
  lemma {:induction false} RootXfer<T, L>(w: World<T, L>, roots: seq<Module<T, L>>, n: nat)
    requires Registered(w, roots) && Apart(roots) && n < |roots|
    ensures
      var v, u := WorkAll(w, roots, n).0, XferAll(Worked(w, roots).0, roots, n).0;
      && Tree(roots[n]) && Modules(roots[n]) <= v.ms.Keys && Modules(roots[n]) <= u.ms.Keys && ActiveInside(u)
      && Built(WorkPass(v, roots[n]).0) && roots[n] in WorkPass(v, roots[n]).0.active && roots[n] in u.active
      && Calls(XferPass(u, roots[n]).1) == Calls(XferPass(WorkPass(v, roots[n]).0, roots[n]).1)
  {
    hide *;
    WorkedIs(w, roots);
    WorldKeys(w, roots, |roots|);
    WorldKeys(w, roots, n);
    WorkAllNext(w, roots, n);
    var v, all := WorkAll(w, roots, n).0, Worked(w, roots).0;
    XferAllNext(all, roots, n);
    var u, done := XferAll(all, roots, n).0, WorkPass(v, roots[n]).0;
    WorldKeys(w, roots, n + 1);
    RegisteredAt(done, roots, n);
    LaterRootsKeep(w, roots, n, |roots|);
    XferAllKeepsRuns(all, roots, n);
    SameRunsPart(all, u, all.ms.Keys, Modules(roots[n]));
    SameRunsThen(done, all, u, Modules(roots[n]));
    SameRunsPart(done, u, Modules(roots[n]), Modules(roots[n]));
    XferDepends(u, done, roots[n]);
  }

  /** All `Work` of a cycle, and then all `Xfer`. */
  ghost function Worked<T, L>(w: World<T, L>, roots: seq<Module<T, L>>): (r: (World<T, L>, seq<Event<T, L>>))
    requires Registered(w, roots)
    ensures Registered(r.0, roots) && r.0.ms.Keys == w.ms.Keys && r.0.qs.Keys == w.qs.Keys
  {
    WorkAll(w, roots, |roots|)
  }

  ghost function Transferred<T, L>(w: World<T, L>, roots: seq<Module<T, L>>): (r: (World<T, L>, seq<Event<T, L>>))
    requires Registered(w, roots)
    ensures Registered(r.0, roots) && r.0.ms.Keys == w.ms.Keys && r.0.qs.Keys == w.qs.Keys
  {
    XferAll(Worked(w, roots).0, roots, |roots|)
  }

  lemma {:induction false} WorkedIs<T, L>(w: World<T, L>, roots: seq<Module<T, L>>)
    requires Registered(w, roots)
    ensures Worked(w, roots) == WorkAll(w, roots, |roots|)
    ensures Worked(w, roots).0.ms.Keys == w.ms.Keys && Registered(Worked(w, roots).0, roots)
    ensures Transferred(w, roots) == XferAll(Worked(w, roots).0, roots, |roots|)
  {
  }

  /** Every child's subtree of every root is in order. */
  ghost predicate AllOrderedBelow<T, L>(roots: seq<Module<T, L>>)
    requires Trees(roots)
  {
    forall i {:trigger roots[i]} :: 0 <= i < |roots| ==> OrderedBelow(Watched, roots[i])
  }

  /** Every root is in order in all its ports, and no root has a queue bound that an earlier root owns. */
  ghost predicate AllOrdered<T, L>(roots: seq<Module<T, L>>)
    requires Trees(roots)
  {
    forall i {:trigger roots[i]} :: 0 <= i < |roots| ==>
      Ordered(Bound, roots[i]) && Seen(Bound, roots[i]) !! OwnedOf(roots, i)
  }

  lemma {:induction false} AllOrderedAt<T, L>(roots: seq<Module<T, L>>, i: nat)
    requires Trees(roots) && AllOrdered(roots) && i < |roots|
    ensures Tree(roots[i]) && Ordered(Bound, roots[i]) && Seen(Bound, roots[i]) !! OwnedOf(roots, i)
  {
  }

  lemma {:induction false} RootsPair<T, L>(w: World<T, L>, roots: seq<Module<T, L>>, n: nat)
    requires Registered(w, roots) && Apart(roots) && AllOrderedBelow(roots) && n <= |roots|
    ensures Calls(XferAll(Worked(w, roots).0, roots, n).1) == Calls(WorkAll(w, roots, n).1)
  {
    hide *;
    WorkedIs(w, roots);
    var all := Worked(w, roots).0;
    if n == 0 {
      NobodyYet(w, all, roots);
    } else {
      RootsPair(w, roots, n - 1);
      RootXfer(w, roots, n - 1);
      WorkAllNext(w, roots, n - 1);
      XferAllNext(all, roots, n - 1);
      OrderedAt(roots, n - 1);
      Paired(WorkAll(w, roots, n - 1).0, roots[n - 1]);
      LogSplit(WorkAll(w, roots, n - 1).1, WorkPass(WorkAll(w, roots, n - 1).0, roots[n - 1]).1);
      LogSplit(XferAll(all, roots, n - 1).1, XferPass(XferAll(all, roots, n - 1).0, roots[n - 1]).1);
    }
  }

  lemma {:induction false} OrderedAt<T, L>(roots: seq<Module<T, L>>, i: nat)
    requires Trees(roots) && AllOrderedBelow(roots) && i < |roots|
    ensures Tree(roots[i]) && OrderedBelow(Watched, roots[i])
  {
  }

  lemma {:induction false} NobodyYet<T, L>(w: World<T, L>, all: World<T, L>, roots: seq<Module<T, L>>)
    requires Registered(w, roots) && Registered(all, roots)
    ensures Calls(XferAll(all, roots, 0).1) == [] && Calls(WorkAll(w, roots, 0).1) == []
  {
  }

  /** When the children of every root are in order, `XferSelf` is called in a cycle on exactly the modules
      whose `WorkSelf` ran in it, in the same order, however many roots there are and although every
      root's `Work` comes before any root's `Xfer`. */
  lemma {:induction false} SystemPairs<T, L>(w: World<T, L>, roots: seq<Module<T, L>>)
    requires Registered(w, roots) && Apart(roots) && AllOrderedBelow(roots)
    ensures Calls(Transferred(w, roots).1) == Calls(Worked(w, roots).1)
  {
    hide *;
    WorkedIs(w, roots);
    RootsPair(w, roots, |roots|);
  }

  /** A system of one root. */
  lemma {:induction false} OneRoot<T, L>(w: World<T, L>, root: Module<T, L>)
    requires Registered(w, [root])
    ensures Tree(root) && Distinct(root) && Modules(root) <= w.ms.Keys && Built(WorkPass(w, root).0)
    ensures root in WorkPass(w, root).0.active && WorkPass(w, root).0.ms.Keys == w.ms.Keys
    ensures Worked(w, [root]) == WorkPass(w, root)
    ensures Transferred(w, [root]) == XferPass(WorkPass(w, root).0, root)
    ensures Apart([root])
  {
    hide *;
    var roots := [root];
    WorkedIs(w, roots);
    WorkAllNext(w, roots, 0);
    RegisteredAt(w, roots, 0);
    XferAllNext(Worked(w, roots).0, roots, 0);
    NothingYet(w, roots);
    NothingYet(Worked(w, roots).0, roots);
    assert [] + WorkPass(w, root).1 == WorkPass(w, root).1;
    assert [] + XferPass(WorkPass(w, root).0, root).1 == XferPass(WorkPass(w, root).0, root).1;
    NoRoots(roots);
    OneApart(root);
  }

  lemma {:induction false} OneApart<T, L>(root: Module<T, L>)
    requires Tree(root)
    ensures Apart([root])
  {
  }

  // ---------- Runs ----------

  ghost function Cycle<T, L>(w: World<T, L>, roots: seq<Module<T, L>>): (r: World<T, L>)
    requires Registered(w, roots)
    ensures Registered(r, roots) && r.ms.Keys == w.ms.Keys && r.qs.Keys == w.qs.Keys
  {
    Transferred(w, roots).0
  }

  /** The state after n cycles. */
  ghost function Cycles<T, L>(w: World<T, L>, roots: seq<Module<T, L>>, n: nat): (r: World<T, L>)
    requires Registered(w, roots)
    ensures Registered(r, roots) && r.ms.Keys == w.ms.Keys && r.qs.Keys == w.qs.Keys
  {
    if n == 0 then w else Cycle(Cycles(w, roots, n - 1), roots)
  }

  /** In every cycle of every run, `Work` did what the plain pass would have done; and when the children of
      every root are in order, `Xfer` called exactly the modules whose `WorkSelf` ran, in the same order. */
  lemma {:induction false} EveryCycle<T, L>(w: World<T, L>, roots: seq<Module<T, L>>, n: nat)
    requires Registered(w, roots) && Apart(roots)
    ensures
      var v := Cycles(w, roots, n);
      && Registered(v, roots) && Worked(v, roots).1 == PlainAll(v, roots, |roots|).1
      && Agree(Worked(v, roots).0, PlainAll(v, roots, |roots|).0)
      && (AllOrderedBelow(roots) ==> Calls(Transferred(v, roots).1) == Calls(Worked(v, roots).1))
  {
    hide *;
    CyclesRegistered(w, roots, n);
    var v := Cycles(w, roots, n);
    WorkedIs(v, roots);
    WorkAllIsPlain(v, roots, |roots|);
    if AllOrderedBelow(roots) {
      SystemPairs(v, roots);
    }
  }

  lemma {:induction false} CyclesRegistered<T, L>(w: World<T, L>, roots: seq<Module<T, L>>, n: nat)
    requires Registered(w, roots)
    ensures Registered(Cycles(w, roots, n), roots) && Trees(roots)
    ensures Cycles(w, roots, n).ms.Keys == w.ms.Keys && Cycles(w, roots, n).qs.Keys == w.qs.Keys
  {
    hide Cycle;
  }

  lemma {:induction false} CyclesCompose<T, L>(w: World<T, L>, roots: seq<Module<T, L>>, c: nat, n: nat)
    requires Registered(w, roots)
    ensures Cycles(Cycles(w, roots, c), roots, n) == Cycles(w, roots, c + n)
  {
    hide Cycle, Registered;
    if n > 0 {
      CyclesCompose(w, roots, c, n - 1);
    }
  }

  // ---------- What Xfer does to queues and to requests ----------

  ghost function XferTurnOps<T, L>(w: World<T, L>, m: Module<T, L>, q: SimQueue?<T>): seq<Op<T>>
    requires m in w.ms
  {
    if w.ms[m].ran then OpsOn(m.Ports(), m.xferSelf(w.ms[m].local, Views(w, m.Ports())).ops, q) else []
  }

  ghost function XferOpsUpTo<T, L>(w: World<T, L>, m: Module<T, L>, n: nat, q: SimQueue?<T>): seq<Op<T>>
    requires Tree(m) && Modules(m) <= w.ms.Keys && ActiveInside(w) && m in w.active && n <= |w.active[m]|
    decreases m.height, n
  {
    if n == 0 then []
    else
      ActiveChild(w, m, n - 1);
      if w.active[m][n - 1] !in w.active then XferOpsUpTo(w, m, n - 1, q)
      else XferOpsUpTo(w, m, n - 1, q) + XferOps(XferUpTo(w, m, n - 1).0, w.active[m][n - 1], q)
  }

  /** The operations made on q in one `Xfer`. */
  ghost function XferOps<T, L>(w: World<T, L>, m: Module<T, L>, q: SimQueue?<T>): seq<Op<T>>
    requires Tree(m) && Modules(m) <= w.ms.Keys && ActiveInside(w) && m in w.active
    decreases m.height, |w.active[m]| + 1
  {
    XferTurnOps(w, m, q) + XferOpsUpTo(XferTurn(w, m).0, m, |w.active[m]|, q)
  }

  ghost function TurnAsks<T, L>(w: World<T, L>, m: Module<T, L>): set<Module<T, L>>
    requires m in w.ms
  {
    if w.ms[m].ran && m.xferSelf(w.ms[m].local, Views(w, m.Ports())).activate then {m} else {}
  }

  ghost function AsksUpTo<T, L>(w: World<T, L>, m: Module<T, L>, n: nat): set<Module<T, L>>
    requires Tree(m) && Modules(m) <= w.ms.Keys && ActiveInside(w) && m in w.active && n <= |w.active[m]|
    decreases m.height, n
  {
    if n == 0 then {}
    else
      ActiveChild(w, m, n - 1);
      if w.active[m][n - 1] !in w.active then AsksUpTo(w, m, n - 1)
      else AsksUpTo(w, m, n - 1) + Asks(XferUpTo(w, m, n - 1).0, w.active[m][n - 1])
  }

  /** The modules whose `XferSelf` asks for activation in one `Xfer`. */
  ghost function Asks<T, L>(w: World<T, L>, m: Module<T, L>): set<Module<T, L>>
    requires Tree(m) && Modules(m) <= w.ms.Keys && ActiveInside(w) && m in w.active
    decreases m.height, |w.active[m]| + 1
  {
    TurnAsks(w, m) + AsksUpTo(XferTurn(w, m).0, m, |w.active[m]|)
  }

  /** Captured epochs and run flags stay, no request is withdrawn, and these modules have one. */
  ghost predicate Keeps<T, L>(w: World<T, L>, w': World<T, L>, asked: set<Module<T, L>>) {
    && w'.ms.Keys == w.ms.Keys
    && forall x :: x in w.ms ==>
         && w'.ms[x].observedInputs == w.ms[x].observedInputs && w'.ms[x].observedInners == w.ms[x].observedInners
         && w'.ms[x].ran == w.ms[x].ran && (w.ms[x].force || x in asked ==> w'.ms[x].force)
  }

  lemma {:induction false} KeepsThen<T, L>(a: World<T, L>, b: World<T, L>, c: World<T, L>,
                                           x: set<Module<T, L>>, y: set<Module<T, L>>)
    requires Keeps(a, b, x) && Keeps(b, c, y)
    ensures Keeps(a, c, x + y)
  {
  }

  lemma {:induction false} XferTurnEffect<T, L>(w: World<T, L>, m: Module<T, L>, q: SimQueue?<T>)
    requires m in w.ms
    ensures Went(w, XferTurn(w, m).0, q, XferTurnOps(w, m, q)) && Keeps(w, XferTurn(w, m).0, TurnAsks(w, m))
  {
    PortRunWent(w.qs, m.Ports(), m.xferSelf(w.ms[m].local, Views(w, m.Ports())).ops, q);
  }

  lemma {:induction false} NoXferEffect<T, L>(w: World<T, L>, m: Module<T, L>, q: SimQueue?<T>)
    requires Tree(m) && Modules(m) <= w.ms.Keys && Built(w) && m in w.active
    ensures XferUpTo(w, m, 0).0 == w && XferOpsUpTo(w, m, 0, q) == [] && AsksUpTo(w, m, 0) == {}
    ensures Keeps(w, w, {})
  {
  }

  lemma {:induction false} XferOpsNext<T, L>(w: World<T, L>, m: Module<T, L>, n: nat, q: SimQueue?<T>)
    requires Tree(m) && Modules(m) <= w.ms.Keys && Built(w) && m in w.active && 0 < n <= |w.active[m]|
    ensures
      var a, v := w.active[m][n - 1], XferUpTo(w, m, n - 1).0;
      && Tree(a) && a.height < m.height && Modules(a) <= v.ms.Keys && a in v.active && Built(v)
      && XferUpTo(w, m, n).0 == XferPass(v, a).0
      && XferOpsUpTo(w, m, n, q) == XferOpsUpTo(w, m, n - 1, q) + XferOps(v, a, q)
      && AsksUpTo(w, m, n) == AsksUpTo(w, m, n - 1) + Asks(v, a)
  {
    XferUpToNext(w, m, n);
  }

  lemma {:induction false} XferOpsParts<T, L>(w: World<T, L>, m: Module<T, L>, q: SimQueue?<T>)
    returns (w1: World<T, L>)
    requires Tree(m) && Modules(m) <= w.ms.Keys && Built(w) && m in w.active
    ensures m in w.ms && w1 == XferTurn(w, m).0 && Built(w1) && w1.active == w.active && w1.ms.Keys == w.ms.Keys
    ensures XferPass(w, m).0 == XferUpTo(w1, m, |w.active[m]|).0
    ensures XferOps(w, m, q) == XferTurnOps(w, m, q) + XferOpsUpTo(w1, m, |w.active[m]|, q)
    ensures Asks(w, m) == TurnAsks(w, m) + AsksUpTo(w1, m, |w.active[m]|)
  {
    w1 := XferStages(w, m);
  }

  lemma {:induction false} XferUpToEffect<T, L>(w: World<T, L>, m: Module<T, L>, n: nat, q: SimQueue?<T>)
    requires Tree(m) && Modules(m) <= w.ms.Keys && Built(w) && m in w.active && n <= |w.active[m]|
    ensures Went(w, XferUpTo(w, m, n).0, q, XferOpsUpTo(w, m, n, q)) && Keeps(w, XferUpTo(w, m, n).0, AsksUpTo(w, m, n))
    decreases m.height, n
  {
    hide *;
    BuiltFacts(w);
    NoXferEffect(w, m, q);
    if n == 0 {
      WentNowhere(w, q);
    } else {
      XferOpsNext(w, m, n, q);
      XferUpToEffect(w, m, n - 1, q);
      var a, v := w.active[m][n - 1], XferUpTo(w, m, n - 1).0;
      BuiltFacts(v);
      XferEffect(v, a, q);
      WentThen(w, v, XferUpTo(w, m, n).0, q, XferOpsUpTo(w, m, n - 1, q), XferOps(v, a, q));
      KeepsThen(w, v, XferUpTo(w, m, n).0, AsksUpTo(w, m, n - 1), Asks(v, a));
    }
  }

  /** `Xfer` takes each queue through exactly its operations, leaves captured epochs alone, and leaves a
      request behind for every module that asked for one. */
  lemma {:induction false} XferEffect<T, L>(w: World<T, L>, m: Module<T, L>, q: SimQueue?<T>)
    requires Tree(m) && Modules(m) <= w.ms.Keys && Built(w) && ActiveInside(w) && m in w.active
    ensures Went(w, XferPass(w, m).0, q, XferOps(w, m, q)) && Keeps(w, XferPass(w, m).0, Asks(w, m))
    decreases m.height, |w.active[m]| + 1
  {
    hide *;
    BuiltFacts(w);
    var w1 := XferOpsParts(w, m, q);
    var n := |w.active[m]|;
    XferTurnEffect(w, m, q);
    XferUpToEffect(w1, m, n, q);
    WentThen(w, w1, XferPass(w, m).0, q, XferTurnOps(w, m, q), XferOpsUpTo(w1, m, n, q));
    KeepsThen(w, w1, XferPass(w, m).0, TurnAsks(w, m), AsksUpTo(w1, m, n));
  }

  // ---------- One cycle ----------

  /** The operations made on q by the `Work` of the first n roots. */
  ghost function AllOps<T, L>(w: World<T, L>, roots: seq<Module<T, L>>, n: nat, q: SimQueue?<T>): seq<Op<T>>
    requires Registered(w, roots) && n <= |roots|
  {
    if n == 0 then []
    else AllOps(w, roots, n - 1, q) + PassOps(PlainAll(w, roots, n - 1).0, roots[n - 1], q)
  }

  ghost function WorkedOps<T, L>(w: World<T, L>, roots: seq<Module<T, L>>, q: SimQueue?<T>): seq<Op<T>>
    requires Registered(w, roots)
  {
    AllOps(w, roots, |roots|, q)
  }

  ghost function XferAllOps<T, L>(w: World<T, L>, roots: seq<Module<T, L>>, n: nat, q: SimQueue?<T>): seq<Op<T>>
    requires Registered(w, roots) && n <= |roots|
  {
    if n == 0 then []
    else
      RegisteredAt(XferAll(w, roots, n - 1).0, roots, n - 1);
      XferAllOps(w, roots, n - 1, q) + XferOps(XferAll(w, roots, n - 1).0, roots[n - 1], q)
  }

  /** The modules that ask for activation in the `Xfer` of the first n roots. */
  ghost function AllAsks<T, L>(w: World<T, L>, roots: seq<Module<T, L>>, n: nat): set<Module<T, L>>
    requires Registered(w, roots) && n <= |roots|
  {
    if n == 0 then {}
    else
      RegisteredAt(XferAll(w, roots, n - 1).0, roots, n - 1);
      AllAsks(w, roots, n - 1) + Asks(XferAll(w, roots, n - 1).0, roots[n - 1])
  }

  lemma {:induction false} AllOpsNext<T, L>(w: World<T, L>, roots: seq<Module<T, L>>, n: nat, q: SimQueue?<T>)
    requires Registered(w, roots) && n < |roots|
    ensures
      var v, x := PlainAll(w, roots, n).0, XferAll(w, roots, n).0;
      && Trees(roots) && Tree(roots[n]) && Modules(roots[n]) <= v.ms.Keys
      && Registered(x, roots) && Built(x) && ActiveInside(x) && Modules(roots[n]) <= x.ms.Keys && roots[n] in x.active
      && AllOps(w, roots, 0, q) == [] && XferAllOps(w, roots, 0, q) == [] && AllAsks(w, roots, 0) == {}
      && AllOps(w, roots, n + 1, q) == AllOps(w, roots, n, q) + PassOps(v, roots[n], q)
      && XferAllOps(w, roots, n + 1, q) == XferAllOps(w, roots, n, q) + XferOps(x, roots[n], q)
      && AllAsks(w, roots, n + 1) == AllAsks(w, roots, n) + Asks(x, roots[n])
  {
    hide PlainAll, XferAll, PassOps, XferOps, Asks, Distinct;
    RegisteredAt(w, roots, n);
    RegisteredAt(XferAll(w, roots, n).0, roots, n);
  }

  lemma {:induction false} NoOpsYet<T, L>(w: World<T, L>, roots: seq<Module<T, L>>, q: SimQueue?<T>)
    requires Registered(w, roots)
    ensures Trees(roots) && AllOps(w, roots, 0, q) == [] && XferAllOps(w, roots, 0, q) == []
    ensures AllAsks(w, roots, 0) == {} && Keeps(w, w, {})
  {
  }

  lemma {:induction false} AllWent<T, L>(w: World<T, L>, roots: seq<Module<T, L>>, n: nat, q: SimQueue?<T>)
    requires Registered(w, roots) && n <= |roots|
    ensures Went(w, PlainAll(w, roots, n).0, q, AllOps(w, roots, n, q))
  {
    hide *;
    NoOpsYet(w, roots, q);
    if n == 0 {
      NothingYet(w, roots);
      WentNowhere(w, q);
    } else {
      AllWent(w, roots, n - 1, q);
      RegisteredAt(w, roots, n - 1);
      AllOpsNext(w, roots, n - 1, q);
      PlainAllNext(w, roots, n - 1);
      var v := PlainAll(w, roots, n - 1).0;
      PassWent(v, roots[n - 1], q);
      WentThen(w, v, PlainAll(w, roots, n).0, q, AllOps(w, roots, n - 1, q), PassOps(v, roots[n - 1], q));
    }
  }

  /** The passes over roots that x does not belong to leave it alone. */
  lemma {:induction false} AllWithout<T, L>(w: World<T, L>, roots: seq<Module<T, L>>, n: nat, x: Module<T, L>)
    requires Registered(w, roots) && n <= |roots| && Trees(roots) && x !in ModulesOf(roots, n)
    ensures Without(w, PlainAll(w, roots, n), x)
  {
    hide *;
    if n == 0 {
      NothingYet(w, roots);
      WithoutNothing(w, x);
    } else {
      RegisteredAt(w, roots, n - 1);
      RootModules(roots, n - 1, n);
      ModulesOfNext(roots, n);
      AllWithout(w, roots, n - 1, x);
      PlainAllNext(w, roots, n - 1);
      var r1 := PlainAll(w, roots, n - 1);
      PassWithout(r1.0, roots[n - 1], x);
      WithoutThen(w, r1, PlainPass(r1.0, roots[n - 1]), x);
    }
  }

  lemma {:induction false} WithoutNothing<T, L>(w: World<T, L>, x: Module<T, L>)
    ensures Without(w, (w, []), x)
  {
  }

  lemma {:induction false} ModulesOfNext<T, L>(roots: seq<Module<T, L>>, n: nat)
    requires Trees(roots) && 0 < n <= |roots|
    ensures Tree(roots[n - 1]) && ModulesOf(roots, n) == ModulesOf(roots, n - 1) + Modules(roots[n - 1])
    ensures OwnedOf(roots, n) == OwnedOf(roots, n - 1) + Owned(roots[n - 1])
  {
  }

  /** Every module of the system has its one turn in a cycle. */
  lemma {:induction false} TurnInAll<T, L>(w: World<T, L>, roots: seq<Module<T, L>>, n: nat, x: Module<T, L>,
                                           q: SimQueue?<T>) returns (u: World<T, L>, pre: seq<Op<T>>)
    requires Registered(w, roots) && Apart(roots) && n <= |roots| && Trees(roots) && x in ModulesOf(roots, n)
    ensures TurnAt(w, PlainAll(w, roots, n), AllOps(w, roots, n, q), x, q, u, pre)
  {
    hide *;
    if n == 0 {
      NoRoots(roots);
    } else {
      RegisteredAt(w, roots, n - 1);
      ModulesOfNext(roots, n);
      ModulesKnown(w, roots, n);
      AllOpsNext(w, roots, n - 1, q);
      PlainAllNext(w, roots, n - 1);
      var c, r1, ops1 := roots[n - 1], PlainAll(w, roots, n - 1), AllOps(w, roots, n - 1, q);
      var r2, ops2 := PlainPass(r1.0, c), PassOps(r1.0, c, q);
      ApartAt(roots, n - 1);
      PassWent(r1.0, c, q);
      WentFacts(r1.0, r2.0, q, ops2);
      if x in ModulesOf(roots, n - 1) {
        u, pre := TurnInAll(w, roots, n - 1, x, q);
        PassWithout(r1.0, c, x);
        TurnEarlier(w, r1, ops1, r2, ops2, x, q, u, pre);
      } else {
        AllWithout(w, roots, n - 1, x);
        AllWent(w, roots, n - 1, q);
        u, pre := TurnInPass(r1.0, c, x, q);
        TurnLater(w, r1, ops1, r2, ops2, x, q, u, pre);
        pre := ops1 + pre;
      }
    }
  }

  lemma {:induction false} XferAllEffect<T, L>(w: World<T, L>, roots: seq<Module<T, L>>, n: nat, q: SimQueue?<T>)
    requires Registered(w, roots) && n <= |roots|
    ensures Went(w, XferAll(w, roots, n).0, q, XferAllOps(w, roots, n, q))
    ensures Keeps(w, XferAll(w, roots, n).0, AllAsks(w, roots, n))
  {
    hide *;
    NoOpsYet(w, roots, q);
    if n == 0 {
      NothingYet(w, roots);
      WentNowhere(w, q);
    } else {
      XferAllEffect(w, roots, n - 1, q);
      AllOpsNext(w, roots, n - 1, q);
      XferAllNext(w, roots, n - 1);
      var v := XferAll(w, roots, n - 1).0;
      XferEffect(v, roots[n - 1], q);
      WentThen(w, v, XferAll(w, roots, n).0, q, XferAllOps(w, roots, n - 1, q), XferOps(v, roots[n - 1], q));
      KeepsThen(w, v, XferAll(w, roots, n).0, AllAsks(w, roots, n - 1), Asks(v, roots[n - 1]));
    }
  }

  /** The operations made on q in one cycle. */
  ghost function CycleOps<T, L>(w: World<T, L>, roots: seq<Module<T, L>>, q: SimQueue?<T>): seq<Op<T>>
    requires Registered(w, roots)
  {
    WorkedOps(w, roots, q) + XferAllOps(Worked(w, roots).0, roots, |roots|, q)
  }

  ghost function RunOps<T, L>(w: World<T, L>, roots: seq<Module<T, L>>, n: nat, q: SimQueue?<T>): seq<Op<T>>
    requires Registered(w, roots)
  {
    if n == 0 then [] else RunOps(w, roots, n - 1, q) + CycleOps(Cycles(w, roots, n - 1), roots, q)
  }

  lemma {:induction false} WorkWent<T, L>(w: World<T, L>, roots: seq<Module<T, L>>, q: SimQueue?<T>)
    requires Registered(w, roots)
    ensures
      var plain := PlainAll(w, roots, |roots|);
      && Went(w, Worked(w, roots).0, q, WorkedOps(w, roots, q))
      && Worked(w, roots).1 == plain.1 && Worked(w, roots).0.ms == plain.0.ms && Worked(w, roots).0.qs == plain.0.qs
      && WorkedOps(w, roots, q) == AllOps(w, roots, |roots|, q)
  {
    hide WorkAll, PlainAll, AllOps, Worked, Run;
    WorkedIs(w, roots);
    WorkAllIsPlain(w, roots, |roots|);
    AllWent(w, roots, |roots|, q);
  }

  lemma {:induction false} CycleParts<T, L>(w: World<T, L>, roots: seq<Module<T, L>>, q: SimQueue?<T>)
    requires Registered(w, roots)
    ensures
      var v := Worked(w, roots).0;
      && v.ms.Keys == w.ms.Keys && Registered(v, roots) && Trees(roots)
      && Cycle(w, roots) == XferAll(v, roots, |roots|).0 && Transferred(w, roots) == XferAll(v, roots, |roots|)
      && CycleOps(w, roots, q) == WorkedOps(w, roots, q) + XferAllOps(v, roots, |roots|, q)
  {
  }

  /** A cycle takes each queue through exactly its operations. */
  lemma {:induction false} CycleWent<T, L>(w: World<T, L>, roots: seq<Module<T, L>>, q: SimQueue?<T>)
    requires Registered(w, roots)
    ensures Went(w, Cycle(w, roots), q, CycleOps(w, roots, q))
  {
    hide *;
    CycleParts(w, roots, q);
    WorkWent(w, roots, q);
    var v := Worked(w, roots).0;
    XferAllEffect(v, roots, |roots|, q);
    WentThen(w, v, Cycle(w, roots), q, WorkedOps(w, roots, q), XferAllOps(v, roots, |roots|, q));
  }

  lemma {:induction false} RunOpsNext<T, L>(w: World<T, L>, roots: seq<Module<T, L>>, n: nat, q: SimQueue?<T>)
    requires Registered(w, roots)
    ensures Cycles(w, roots, 0) == w && RunOps(w, roots, 0, q) == []
    ensures Cycles(w, roots, n + 1) == Cycle(Cycles(w, roots, n), roots)
    ensures RunOps(w, roots, n + 1, q) == RunOps(w, roots, n, q) + CycleOps(Cycles(w, roots, n), roots, q)
  {
    hide Cycle, CycleOps, Registered;
  }

  /** A run takes each queue through exactly its operations. */
  lemma {:induction false} RunWent<T, L>(w: World<T, L>, roots: seq<Module<T, L>>, n: nat, q: SimQueue?<T>)
    requires Registered(w, roots)
    ensures Went(w, Cycles(w, roots, n), q, RunOps(w, roots, n, q))
  {
    hide *;
    RunOpsNext(w, roots, n, q);
    if n == 0 {
      WentNowhere(w, q);
    } else {
      RunOpsNext(w, roots, n - 1, q);
      RunWent(w, roots, n - 1, q);
      var v := Cycles(w, roots, n - 1);
      CyclesRegistered(w, roots, n - 1);
      CycleWent(v, roots, q);
      WentThen(w, v, Cycles(w, roots, n), q, RunOps(w, roots, n - 1, q), CycleOps(v, roots, q));
    }
  }
}
