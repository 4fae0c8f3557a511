/** What every `WorkSelf` and `XferSelf` is handed, what its call does to queues and own state, and what a
    consumer gets. */
module SelfCalls {
  import W = Wrappers
  import opened QueueSpec
  import opened SimQueues
  import opened Scheduler
  import opened SchedulerTheorems
  import opened WorkXferPairing
  import opened PassHistory
  import opened SystemCycles

  // ---------- One call ----------

  function PortCount<T, L>(m: Module<T, L>): nat {
    |m.inputs| + |m.outputs| + |m.inners|
  }

  /** Ports are numbered through inputs, then outputs, then inners. */
  function PortOf<T, L>(m: Module<T, L>, k: nat): SimQueue?<T>
    requires k < PortCount(m)
  {
    if k < |m.inputs| then m.inputs[k]
    else if k < |m.inputs| + |m.outputs| then m.outputs[k - |m.inputs|]
    else m.inners[k - |m.inputs| - |m.outputs|]
  }

  /** The views of a call are the queues bound to the ports as the call finds them, one for each port, and
      nothing for an unbound port. */
  ghost predicate Handed<T, L>(e: Event<T, L>)
    requires e.Ran?
  {
    && |e.views| == PortCount(e.m)
    && forall k :: 0 <= k < PortCount(e.m) ==>
         var q := PortOf(e.m, k);
         (e.views[k].None? <==> q == null) && (q != null && q in e.before ==> e.views[k].value == e.before[q])
  }

  /** The operations of a call that reach a queue: those on a port bound to it, in order, and never a `Work`. */
  lemma {:induction false} OneOpReaches<T, L>(m: Module<T, L>, port: nat, op: Op<T>, q: SimQueue<T>)
    ensures OpsOn(m.Ports(), [PortOp(port, op)], q) ==
            if !op.Work? && port < PortCount(m) && PortOf(m, port) == q then [op] else []
  {
    var one: seq<PortOp<T>> := [PortOp(port, op)];
    assert one[..0] == [];
  }

  lemma {:induction false} OpsReachInOrder<T>(ports: seq<SimQueue?<T>>, a: seq<PortOp<T>>, b: seq<PortOp<T>>,
                                              q: SimQueue<T>)
    ensures OpsOn(ports, a + b, q) == OpsOn(ports, a, q) + OpsOn(ports, b, q)
  {
    hide OpOn;
    if b == [] {
      assert a + b == a;
    } else {
      OpsReachInOrder(ports, a, b[..|b| - 1], q);
      assert (a + b)[..|a + b| - 1] == a + b[..|b| - 1];
    }
  }

  /** What the module's own code answers to a call. */
  ghost function Answer<T, L>(e: Event<T, L>, work: bool): SelfStep<L, T>
    requires e.Ran?
  {
    if work then e.m.workSelf(e.local, e.views) else e.m.xferSelf(e.local, e.views)
  }

  /** The call is handed its views, and takes each queue through exactly those of its operations that name
      a port bound to it. */
  ghost predicate ProperCall<T, L>(e: Event<T, L>, work: bool) {
    e.Ran? ==>
      && Handed(e) && e.after.Keys == e.before.Keys
      && forall q :: q in e.before ==> e.after[q] == Run(e.before[q], OpsOn(e.m.Ports(), Answer(e, work).ops, q))
  }

  /** The own state of x once these calls are made: what the last one of x answered. */
  ghost function LocalAfter<T, L>(l: L, log: seq<Event<T, L>>, x: Module<T, L>, work: bool): L {
    if log == [] then l
    else
      var n := |log| - 1;
      if log[n].Ran? && log[n].m == x then Answer(log[n], work).local else LocalAfter(l, log[..n], x, work)
  }

  /** Every call in the log is proper and finds the own state that the call before it left, and w' holds
      what the last ones left. */
  ghost predicate Threaded<T, L>(w: World<T, L>, log: seq<Event<T, L>>, work: bool, w': World<T, L>) {
    && w'.ms.Keys == w.ms.Keys
    && (forall i :: 0 <= i < |log| ==> ProperCall(log[i], work) && (log[i].Ran? ==> log[i].before.Keys == w.qs.Keys))
    && (forall x :: x in w.ms ==> w'.ms[x].local == LocalAfter(w.ms[x].local, log, x, work))
    && forall i :: 0 <= i < |log| && log[i].Ran? && log[i].m in w.ms ==>
         log[i].local == LocalAfter(w.ms[log[i].m].local, log[..i], log[i].m, work)
  }

  lemma {:induction false} LocalSplit<T, L>(l: L, a: seq<Event<T, L>>, b: seq<Event<T, L>>, x: Module<T, L>, work: bool)
    ensures LocalAfter(l, a + b, x, work) == LocalAfter(LocalAfter(l, a, x, work), b, x, work)
  {
    if b == [] {
      assert a + b == a;
    } else {
      LocalSplit(l, a, b[..|b| - 1], x, work);
      assert (a + b)[..|a + b| - 1] == a + b[..|b| - 1];
    }
  }

  lemma {:induction false} ThreadedThen<T, L>(a: World<T, L>, x: seq<Event<T, L>>, b: World<T, L>, y: seq<Event<T, L>>,
                                              c: World<T, L>, work: bool)
    requires Threaded(a, x, work, b) && Threaded(b, y, work, c) && b.qs.Keys == a.qs.Keys
    ensures Threaded(a, x + y, work, c)
  {
    hide ProperCall, LocalAfter;
    var log := x + y;
    forall m | m in a.ms
      ensures c.ms[m].local == LocalAfter(a.ms[m].local, log, m, work)
    {
      LocalSplit(a.ms[m].local, x, y, m, work);
    }
    forall i | 0 <= i < |log| && log[i].Ran? && log[i].m in a.ms
      ensures log[i].local == LocalAfter(a.ms[log[i].m].local, log[..i], log[i].m, work)
    {
      if i < |x| {
        assert log[..i] == x[..i];
      } else {
        assert log[..i] == x + y[..i - |x|];
        LocalSplit(a.ms[log[i].m].local, x, y[..i - |x|], log[i].m, work);
      }
    }
    forall i | 0 <= i < |log|
      ensures ProperCall(log[i], work) && (log[i].Ran? ==> log[i].before.Keys == a.qs.Keys)
    {
      assert i < |x| ==> log[i] == x[i];
      assert i >= |x| ==> log[i] == y[i - |x|];
    }
  }

  lemma {:induction false} ThreadedNothing<T, L>(w: World<T, L>, work: bool)
    ensures Threaded(w, [], work, w)
  {
  }

  lemma {:induction false} HandedCall<T, L>(w: World<T, L>, m: Module<T, L>, after: Queues<T>)
    requires m in w.ms
    ensures Handed(CallOf(w, m, after))
  {
  }

  /** One call by itself. */
  lemma {:induction false} ThreadedOne<T, L>(w: World<T, L>, m: Module<T, L>, w': World<T, L>, work: bool)
    requires m in w.ms && w'.ms.Keys == w.ms.Keys
    requires
      var step := Answer(CallOf(w, m, w'.qs), work);
      && w'.qs == PortRun(w.qs, m.Ports(), step.ops) && w'.ms[m].local == step.local
      && forall x :: x in w.ms && x != m ==> w'.ms[x] == w.ms[x]
    ensures Threaded(w, [CallOf(w, m, w'.qs)], work, w')
  {
    hide Handed, Run, LocalAfter;
    var e := CallOf(w, m, w'.qs);
    HandedCall(w, m, w'.qs);
    forall q | q in w.qs
      ensures q in w'.qs && w'.qs[q] == Run(w.qs[q], OpsOn(m.Ports(), Answer(e, work).ops, q))
    {
      PortRunWent(w.qs, m.Ports(), Answer(e, work).ops, q);
    }
    PortRunKeys(w.qs, m.Ports(), Answer(e, work).ops);
    assert ProperCall(e, work);
    OneLocal(w, e, work);
    assert w'.ms[m].local == Answer(e, work).local;
  }

  lemma {:induction false} OneLocal<T, L>(w: World<T, L>, e: Event<T, L>, work: bool)
    requires e.Ran?
    ensures forall x, l :: LocalAfter(l, [e], x, work) == if x == e.m then Answer(e, work).local else l
    ensures forall x, l :: LocalAfter(l, [e][..0], x, work) == l
  {
    assert [e][..0] == [];
  }

  // ---------- All calls of a `Work` ----------

  lemma {:induction false} VisitThreaded<T, L>(w: World<T, L>, m: Module<T, L>)
    requires m in w.ms
    ensures Threaded(w, Visit(w, m).1, true, Visit(w, m).0)
  {
    if HasEvent(w, m) {
      TurnAnswers(w, m);
      ThreadedOne(w, m, SelfTurn(w, m), true);
    }
  }

  lemma {:induction false} TurnAnswers<T, L>(w: World<T, L>, m: Module<T, L>)
    requires m in w.ms
    ensures
      var step, w' := Answer(CallOf(w, m, SelfTurn(w, m).qs), true), SelfTurn(w, m);
      && w'.ms.Keys == w.ms.Keys && w'.qs == PortRun(w.qs, m.Ports(), step.ops) && w'.ms[m].local == step.local
      && forall x :: x in w.ms && x != m ==> w'.ms[x] == w.ms[x]
  {
  }

  lemma {:induction false} AdvanceThreaded<T, L>(w: World<T, L>, qs: seq<SimQueue<T>>, work: bool)
    ensures Threaded(w, AdvanceOwned(w, qs).1, work, AdvanceOwned(w, qs).0)
  {
    hide Apply;
    AdvanceOwnedKeys(w, qs);
    if qs != [] {
      var n := |qs| - 1;
      AdvanceThreaded(w, qs[..n], work);
      AdvanceOwnedKeys(w, qs[..n]);
      var v := AdvanceOwned(w, qs[..n]);
      AdvancedThreaded(v.0, qs[n], work);
      ThreadedThen(w, v.1, v.0, [Advanced(qs[n])], Advance(v.0, qs[n]), work);
    }
  }

  lemma {:induction false} AdvancedThreaded<T, L>(w: World<T, L>, q: SimQueue<T>, work: bool)
    ensures Threaded(w, [Advanced(q)], work, Advance(w, q))
  {
    var one: seq<Event<T, L>> := [Advanced(q)];
    assert one[..0] == [];
  }

  lemma {:induction false} ChildrenThreaded<T, L>(w: World<T, L>, m: Module<T, L>, n: nat)
    requires Tree(m) && n <= |m.submodules| && Modules(m) <= w.ms.Keys
    ensures Threaded(w, PlainChildren(w, m, n).1, true, PlainChildren(w, m, n).0)
    ensures PlainChildren(w, m, n).0.qs.Keys == w.qs.Keys
    decreases m.height, n
  {
    hide *;
    PlainKeys(w, m, n);
    if n == 0 {
      NothingLogged(w, m);
      ThreadedNothing(w, true);
    } else {
      PlainChildrenNext(w, m, n - 1);
      PlainKeys(w, m, n - 1);
      ChildrenThreaded(w, m, n - 1);
      var r1, c := PlainChildren(w, m, n - 1), m.submodules[n - 1];
      PassThreaded(r1.0, c);
      ThreadedThen(w, r1.1, r1.0, PlainPass(r1.0, c).1, PlainPass(r1.0, c).0, true);
    }
  }

  lemma {:induction false} PlainKeys<T, L>(w: World<T, L>, m: Module<T, L>, n: nat)
    requires Tree(m) && n <= |m.submodules| && Modules(m) <= w.ms.Keys
    ensures PlainChildren(w, m, n).0.ms.Keys == w.ms.Keys && PlainChildren(w, m, n).0.qs.Keys == w.qs.Keys
    ensures PlainPass(w, m).0.ms.Keys == w.ms.Keys && PlainPass(w, m).0.qs.Keys == w.qs.Keys
  {
  }

  lemma {:induction false} PassThreaded<T, L>(w: World<T, L>, m: Module<T, L>)
    requires Tree(m) && Modules(m) <= w.ms.Keys
    ensures Threaded(w, PlainPass(w, m).1, true, PlainPass(w, m).0)
    decreases m.height, |m.submodules| + 1
  {
    hide *;
    InOwnModules(m);
    var w1, w2 := PlainStages(w, m);
    var n := |m.submodules|;
    var log1, log2, log3 := Visit(w, m).1, PlainChildren(w1, m, n).1, AdvanceOwned(w2, m.ownedQueues).1;
    PlainKeys(w1, m, n);
    VisitThreaded(w, m);
    ChildrenThreaded(w1, m, n);
    AdvanceThreaded(w2, m.ownedQueues, true);
    ThreadedThen(w, log1, w1, log2, w2, true);
    ThreadedThen(w, log1 + log2, w2, log3, PlainPass(w, m).0, true);
  }

  lemma {:induction false} AllThreaded<T, L>(w: World<T, L>, roots: seq<Module<T, L>>, n: nat)
    requires Registered(w, roots) && n <= |roots|
    ensures Threaded(w, PlainAll(w, roots, n).1, true, PlainAll(w, roots, n).0)
  {
    hide *;
    WorldKeys(w, roots, n);
    if n == 0 {
      NothingYet(w, roots);
      ThreadedNothing(w, true);
    } else {
      WorldKeys(w, roots, n - 1);
      PlainAllNext(w, roots, n - 1);
      AllThreaded(w, roots, n - 1);
      var r1, c := PlainAll(w, roots, n - 1), roots[n - 1];
      PassThreaded(r1.0, c);
      ThreadedThen(w, r1.1, r1.0, PlainPass(r1.0, c).1, PlainPass(r1.0, c).0, true);
    }
  }

  lemma {:induction false} ThreadedAgrees<T, L>(w: World<T, L>, log: seq<Event<T, L>>, work: bool,
                                                w1: World<T, L>, w2: World<T, L>)
    requires Threaded(w, log, work, w1) && w2.ms == w1.ms
    ensures Threaded(w, log, work, w2)
  {
  }

  /** In the `Work` of a system, whatever the wiring and whatever is skipped, every `WorkSelf` is handed the
      bound queues as it finds them and its own state, its operations reach exactly the queues bound to the
      ports they name, and its own state is afterwards what it answered. */
  lemma {:induction false} WorkCallsProper<T, L>(w: World<T, L>, roots: seq<Module<T, L>>)
    requires Registered(w, roots)
    ensures Threaded(w, Worked(w, roots).1, true, Worked(w, roots).0)
  {
    hide *;
    WorkWent(w, roots, null);
    AllThreaded(w, roots, |roots|);
    ThreadedAgrees(w, Worked(w, roots).1, true, PlainAll(w, roots, |roots|).0, Worked(w, roots).0);
  }

  // ---------- All calls of an `Xfer` ----------

  lemma {:induction false} XferTurnThreaded<T, L>(w: World<T, L>, m: Module<T, L>)
    requires m in w.ms
    ensures Threaded(w, XferTurn(w, m).1, false, XferTurn(w, m).0)
    ensures XferTurn(w, m).0.qs.Keys == w.qs.Keys
  {
    if w.ms[m].ran {
      XferAnswers(w, m);
      ThreadedOne(w, m, XferTurn(w, m).0, false);
    }
  }

  lemma {:induction false} XferAnswers<T, L>(w: World<T, L>, m: Module<T, L>)
    requires m in w.ms && w.ms[m].ran
    ensures
      var w' := XferTurn(w, m).0;
      var step := Answer(CallOf(w, m, w'.qs), false);
      && w'.ms.Keys == w.ms.Keys && w'.qs == PortRun(w.qs, m.Ports(), step.ops) && w'.ms[m].local == step.local
      && XferTurn(w, m).1 == [CallOf(w, m, w'.qs)]
      && (w'.ms[m].force <==> w.ms[m].force || step.activate)
      && forall x :: x in w.ms && x != m ==> w'.ms[x] == w.ms[x]
  {
  }

  lemma {:induction false} XferKeys<T, L>(w: World<T, L>, m: Module<T, L>, n: nat)
    requires Tree(m) && Modules(m) <= w.ms.Keys && Built(w) && m in w.active && n <= |w.active[m]|
    ensures XferUpTo(w, m, n).0.qs.Keys == w.qs.Keys && XferPass(w, m).0.qs.Keys == w.qs.Keys
    ensures m in w.ms
  {
  }

  lemma {:induction false} XferUpToThreaded<T, L>(w: World<T, L>, m: Module<T, L>, n: nat)
    requires Tree(m) && Modules(m) <= w.ms.Keys && Built(w) && m in w.active && n <= |w.active[m]|
    ensures Threaded(w, XferUpTo(w, m, n).1, false, XferUpTo(w, m, n).0)
    decreases m.height, n
  {
    hide *;
    BuiltFacts(w);
    if n == 0 {
      NoXfer(w, m);
      ThreadedNothing(w, false);
    } else {
      XferUpToNext(w, m, n);
      XferOpsNext(w, m, n, null);
      XferKeys(w, m, n - 1);
      XferUpToThreaded(w, m, n - 1);
      var v, a := XferUpTo(w, m, n - 1), w.active[m][n - 1];
      BuiltFacts(v.0);
      XferThreaded(v.0, a);
      ThreadedThen(w, v.1, v.0, XferPass(v.0, a).1, XferPass(v.0, a).0, false);
    }
  }

  lemma {:induction false} XferThreaded<T, L>(w: World<T, L>, m: Module<T, L>)
    requires Tree(m) && Modules(m) <= w.ms.Keys && Built(w) && ActiveInside(w) && m in w.active
    ensures Threaded(w, XferPass(w, m).1, false, XferPass(w, m).0)
    decreases m.height, |w.active[m]| + 1
  {
    hide *;
    BuiltFacts(w);
    XferKeys(w, m, 0);
    var w1 := XferStages(w, m);
    XferTurnThreaded(w, m);
    XferUpToThreaded(w1, m, |w.active[m]|);
    ThreadedThen(w, XferTurn(w, m).1, w1, XferUpTo(w1, m, |w.active[m]|).1, XferPass(w, m).0, false);
  }

  lemma {:induction false} XferAllThreaded<T, L>(w: World<T, L>, roots: seq<Module<T, L>>, n: nat)
    requires Registered(w, roots) && n <= |roots|
    ensures Threaded(w, XferAll(w, roots, n).1, false, XferAll(w, roots, n).0)
  {
    hide *;
    if n == 0 {
      NothingYet(w, roots);
      ThreadedNothing(w, false);
    } else {
      WorldKeys(w, roots, n - 1);
      XferAllNext(w, roots, n - 1);
      XferAllThreaded(w, roots, n - 1);
      var v, c := XferAll(w, roots, n - 1), roots[n - 1];
      XferThreaded(v.0, c);
      ThreadedThen(w, v.1, v.0, XferPass(v.0, c).1, XferPass(v.0, c).0, false);
    }
  }

  /** The same of every `XferSelf` of a cycle. */
  lemma {:induction false} XferCallsProper<T, L>(w: World<T, L>, roots: seq<Module<T, L>>)
    requires Registered(w, roots)
    ensures Threaded(Worked(w, roots).0, Transferred(w, roots).1, false, Transferred(w, roots).0)
  {
    hide *;
    WorkedIs(w, roots);
    XferAllThreaded(Worked(w, roots).0, roots, |roots|);
  }

  // ---------- A consumer ----------

  /** A `WorkSelf` that takes the oldest entry of port 0 exactly when it is handed one. */
  function Take<T, L>(l: L, views: seq<W.Option<QState<T>>>): SelfStep<L, T> {
    SelfStep(l, if views != [] && views[0].Some? && views[0].value.readQ != [] then [PortOp(0, Op.Read)] else [], false)
  }

  lemma {:induction false} OneRead<T>(ports: seq<SimQueue?<T>>, q: SimQueue<T>, s: QState<T>)
    requires ports != [] && ports[0] == q && Sound(s) && s.readQ != []
    ensures Run(s, OpsOn(ports, [PortOp(0, Op.Read)], q)).readQ == s.readQ[1..]
    ensures Run(s, OpsOn(ports, [PortOp(0, Op.Read)], q)).writeQ == s.writeQ
  {
    hide Run, Apply;
    var ops: seq<PortOp<T>> := [PortOp(0, Op.Read)];
    assert ops[..0] == [];
    assert OpsOn(ports, ops, q) == [Op.Read];
    RunOne(s, Op.Read);
    ReadTakes(s);
  }

  lemma {:induction false} RunOne<T>(s: QState<T>, op: Op<T>)
    requires Sound(s)
    ensures Run(s, [op]) == Apply(s, op)
  {
    hide Apply;
    var one: seq<Op<T>> := [op];
    assert one[..0] == [];
  }

  lemma {:induction false} ReadTakes<T>(s: QState<T>)
    requires Sound(s) && s.readQ != []
    ensures Apply(s, Op.Read).readQ == s.readQ[1..] && Apply(s, Op.Read).writeQ == s.writeQ
  {
  }

  /** The turn of a consumer with an event takes exactly the oldest readable entry of its queue. */
  lemma {:induction false} ConsumerTurn<T, L>(w: World<T, L>, m: Module<T, L>, q: SimQueue<T>)
    requires m.workSelf == Take && m in w.ms && HasEvent(w, m) && m.inputs != [] && m.inputs[0] == q && q in w.qs
    requires w.qs[q].readQ != []
    ensures q in Visit(w, m).0.qs && Visit(w, m).0.qs[q].readQ == w.qs[q].readQ[1..]
    ensures Visit(w, m).0.qs[q].writeQ == w.qs[q].writeQ
  {
    hide Visit, SelfTurn, Run, HasEvent, OpsOn;
    VisitThreaded(w, m);
    CallHere(w, m);
    var e := Visit(w, m).1[0];
    assert m.Ports()[0] == q && ProperCall(e, true);
    assert e.views[0] == W.Some(w.qs[q]);
    OneRead(m.Ports(), q, w.qs[q]);
  }

  lemma {:induction false} CallHere<T, L>(w: World<T, L>, m: Module<T, L>)
    requires m in w.ms && HasEvent(w, m)
    ensures Visit(w, m).1 == [CallOf(w, m, Visit(w, m).0.qs)]
  {
  }

  /** So a consumer without submodules whose one queue holds one readable entry has taken it after a
      `Work`, whether it owns the queue or not. */
  lemma {:induction false} ConsumerTakes<T, L>(w: World<T, L>, m: Module<T, L>, q: SimQueue<T>)
    requires m.workSelf == Take && Tree(m) && m.submodules == [] && Modules(m) <= w.ms.Keys && NoRepeats(m.ownedQueues)
    requires m.inputs != [] && m.inputs[0] == q && q in w.qs && |w.qs[q].readQ| == 1 && w.qs[q].writeQ == []
    requires m in w.ms && HasEvent(w, m)
    ensures q in WorkPass(w, m).0.qs && WorkPass(w, m).0.qs[q].readQ == []
  {
    hide *;
    AgreesWithItself(w);
    WorkIsPlain(w, w, m);
    ConsumerTurn(w, m, q);
    ReadOne(w, q);
    var w1, w2 := PlainStages(w, m);
    NothingLogged(w1, m);
    OwnedStep(w1, m.ownedQueues, q);
    EmptyStays(w1, q);
    AgreesOnQueues(WorkPass(w, m).0, PlainPass(w, m).0);
  }

  lemma {:induction false} ReadOne<T, L>(w: World<T, L>, q: SimQueue<T>)
    requires q in w.qs && |w.qs[q].readQ| == 1
    ensures w.qs[q].readQ != [] && w.qs[q].readQ[1..] == []
  {
  }

  lemma {:induction false} AgreesWithItself<T, L>(w: World<T, L>)
    ensures Agree(w, w)
  {
  }

  lemma {:induction false} AgreesOnQueues<T, L>(w1: World<T, L>, w2: World<T, L>)
    requires Agree(w1, w2)
    ensures w1.qs == w2.qs
  {
  }

  lemma {:induction false} OwnedStep<T, L>(w: World<T, L>, qs: seq<SimQueue<T>>, q: SimQueue<T>)
    requires q in w.qs && NoRepeats(qs)
    ensures q in AdvanceOwned(w, qs).0.qs
    ensures AdvanceOwned(w, qs).0.qs[q] == if q in qs then Apply(w.qs[q], Op.Work) else w.qs[q]
  {
    hide Apply;
    AdvanceOwnedKeys(w, qs);
    if qs != [] {
      var n := |qs| - 1;
      OwnedStep(w, qs[..n], q);
      assert qs == qs[..n] + [qs[n]];
    }
  }

  lemma {:induction false} EmptyStays<T, L>(w: World<T, L>, q: SimQueue<T>)
    requires q in w.qs && w.qs[q].readQ == [] && w.qs[q].writeQ == []
    ensures Apply(w.qs[q], Op.Work).readQ == []
  {
  }

  // ---------- Reset ----------

  /** From w to w' these modules' own states went through their `resetSelf`, and no other's changed. */
  ghost predicate ResetLocals<T, L>(w: World<T, L>, w': World<T, L>, ms: set<Module<T, L>>) {
    && w'.ms.Keys == w.ms.Keys
    && forall x :: x in w.ms ==>
         w'.ms[x].local == if x in ms then x.resetSelf(w.ms[x].local) else w.ms[x].local
  }

  lemma {:induction false} ResetLocalsThen<T, L>(a: World<T, L>, b: World<T, L>, c: World<T, L>,
                                                 x: set<Module<T, L>>, y: set<Module<T, L>>)
    requires ResetLocals(a, b, x) && ResetLocals(b, c, y) && x !! y
    ensures ResetLocals(a, c, x + y)
  {
  }

  lemma {:induction false} EventsKeepLocalsUpTo<T, L>(w: World<T, L>, m: Module<T, L>, n: nat)
    requires Tree(m) && n <= |m.submodules| && Modules(m) <= w.ms.Keys
    ensures ResetLocals(w, ResetEventsUpTo(w, m, n), {})
    decreases m.height, n
  {
    hide Modules, ResetEvents;
    if n > 0 {
      InModules(m, n);
      EventsKeepLocalsUpTo(w, m, n - 1);
      EventsKeepLocals(ResetEventsUpTo(w, m, n - 1), m.submodules[n - 1]);
    }
  }

  lemma {:induction false} EventsKeepLocals<T, L>(w: World<T, L>, m: Module<T, L>)
    requires Tree(m) && Modules(m) <= w.ms.Keys
    ensures ResetLocals(w, ResetEvents(w, m), {})
    decreases m.height, |m.submodules| + 1
  {
    EventsKeepLocalsUpTo(QuietModule(w, m), m, |m.submodules|);
  }

  lemma {:induction false} ResetUpToLocals<T, L>(w: World<T, L>, m: Module<T, L>, n: nat)
    requires Tree(m) && Distinct(m) && n <= |m.submodules| && Modules(m) <= w.ms.Keys
    ensures ResetLocals(w, ResetUpTo(w, m, n), ModulesUpTo(m, n))
    decreases m.height, n
  {
    hide Distinct, ResetPass, Modules;
    if n > 0 {
      ChildModules(m, n);
      ResetUpToLocals(w, m, n - 1);
      var v, c := ResetUpTo(w, m, n - 1), m.submodules[n - 1];
      ResetPassLocals(v, c);
      ResetLocalsThen(w, v, ResetPass(v, c), ModulesUpTo(m, n - 1), Modules(c));
    }
  }

  /** A reset of a tree puts exactly the own states of its modules through their `resetSelf`, once each. */
  lemma {:induction false} ResetPassLocals<T, L>(w: World<T, L>, m: Module<T, L>)
    requires Tree(m) && Distinct(m) && Modules(m) <= w.ms.Keys
    ensures ResetLocals(w, ResetPass(w, m), Modules(m))
    decreases m.height, |m.submodules| + 1
  {
    hide *;
    var n := |m.submodules|;
    var w1, w2 := ResetStages(w, m);
    ModulesParts(m);
    NotBelowItself(m);
    ResetUpToLocals(w1, m, n);
    SameLocals(ResetUpTo(w1, m, n), w2);
    EventsKeepLocals(w2, m);
    ResetLocalsThen(w, w1, ResetUpTo(w1, m, n), {m}, ModulesUpTo(m, n));
    ResetLocalsThen(w, ResetUpTo(w1, m, n), w2, Modules(m), {});
    ResetLocalsThen(w, w2, ResetPass(w, m), Modules(m), {});
    assert Modules(m) + {} == Modules(m);
  }

  lemma {:induction false} ResetStages<T, L>(w: World<T, L>, m: Module<T, L>) returns (w1: World<T, L>, w2: World<T, L>)
    requires Tree(m) && Modules(m) <= w.ms.Keys
    ensures w1.ms.Keys == w.ms.Keys && w2.ms.Keys == w.ms.Keys && ResetLocals(w, w1, {m})
    ensures w2.ms == ResetUpTo(w1, m, |m.submodules|).ms && ResetPass(w, m) == ResetEvents(w2, m)
  {
    w1 := WithState(w, m, w.ms[m].(local := m.resetSelf(w.ms[m].local)));
    w2 := ResetOwned(ResetUpTo(w1, m, |m.submodules|), m.ownedQueues);
  }

  lemma {:induction false} SameLocals<T, L>(w: World<T, L>, w': World<T, L>)
    requires w'.ms == w.ms
    ensures ResetLocals(w, w', {})
  {
  }

  lemma {:induction false} NotBelowItself<T, L>(m: Module<T, L>)
    requires Tree(m) && Distinct(m)
    ensures m !in ModulesUpTo(m, |m.submodules|)
  {
  }
}
