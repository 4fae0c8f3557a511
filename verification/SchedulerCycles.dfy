/** Whole runs of the scheduler: who is called, what a request brings about, and that no visible change
    goes unanswered. */
module WakeUps {
  import opened Words
  import opened QueueSpec
  import opened QueueHistory
  import opened SimQueues
  import opened Scheduler
  import opened SchedulerTheorems
  import opened WorkXferPairing
  import opened SchedulerWake
  import opened PassHistory
  import opened SystemCycles

  // ---------- Who is called ----------

  /** What the turn of x in a pass says about its calls and its state afterwards. */
  lemma {:induction false} TurnMeans<T, L>(w: World<T, L>, r: (World<T, L>, seq<Event<T, L>>), ops: seq<Op<T>>,
                                           x: Module<T, L>, q: SimQueue?<T>, u: World<T, L>, pre: seq<Op<T>>)
    requires TurnAt(w, r, ops, x, q, u, pre)
    ensures x in w.ms && x in u.ms && x in r.0.ms && u.ms[x] == w.ms[x] && Went(w, u, q, pre)
    ensures x in Calls(r.1) <==> HasEvent(u, x)
    ensures r.0.ms[x].ran == HasEvent(u, x)
    ensures !HasEvent(u, x) ==> r.0.ms[x] == w.ms[x].(ran := false)
    ensures HasEvent(u, x) ==> r.0.ms[x] == SelfTurn(u, x).ms[x]
    ensures forall i :: 0 <= i < |r.1| && r.1[i].Ran? && r.1[i].m == x ==> r.1[i].after == SelfTurn(u, x).qs
  {
    CallsAreRuns(r.1, x);
  }

  /** A module has run in a cycle exactly when its flag says so after the `Work`, whatever the wiring. */
  lemma {:induction false} RanFlagExactly<T, L>(w: World<T, L>, roots: seq<Module<T, L>>, x: Module<T, L>)
    requires Registered(w, roots) && Apart(roots) && x in ModulesOf(roots, |roots|)
    ensures x in Worked(w, roots).0.ms
    ensures x in Calls(Worked(w, roots).1) <==> Worked(w, roots).0.ms[x].ran
  {
    hide Worked, PlainAll, AllOps, WorkedOps, TurnAt;
    var u, pre := TurnInAll(w, roots, |roots|, x, null);
    TurnMeans(w, PlainAll(w, roots, |roots|), AllOps(w, roots, |roots|, null), x, null, u, pre);
    WorkWent(w, roots, null);
  }

  ghost predicate AllRan<T, L>(w: World<T, L>, calls: seq<Module<T, L>>, asks: set<Module<T, L>>,
                               ms: set<Module<T, L>>) {
    && (forall x :: x in calls ==> x in ms && x in w.ms && w.ms[x].ran)
    && (forall x :: x in asks ==> x in calls)
  }

  lemma {:induction false} AllRanThen<T, L>(w: World<T, L>, v: World<T, L>, a: seq<Module<T, L>>, b: seq<Module<T, L>>,
                                            x: set<Module<T, L>>, y: set<Module<T, L>>,
                                            less: set<Module<T, L>>, ms: set<Module<T, L>>)
    requires AllRan(w, a, x, ms) && AllRan(v, b, y, less) && less <= ms
    requires SameRuns(w, v, w.ms.Keys) && v.ms.Keys == w.ms.Keys
    ensures AllRan(w, a + b, x + y, ms)
  {
  }

  lemma {:induction false} TurnRan<T, L>(w: World<T, L>, m: Module<T, L>, ms: set<Module<T, L>>)
    requires m in w.ms && m in ms
    ensures AllRan(w, Calls(XferTurn(w, m).1), TurnAsks(w, m), ms)
  {
  }

  lemma {:induction false} NobodyRan<T, L>(w: World<T, L>, m: Module<T, L>, ms: set<Module<T, L>>)
    requires Tree(m) && Modules(m) <= w.ms.Keys && Built(w) && m in w.active
    ensures AllRan(w, Calls(XferUpTo(w, m, 0).1), AsksUpTo(w, m, 0), ms)
  {
  }

  lemma {:induction false} XferUpToRan<T, L>(w: World<T, L>, m: Module<T, L>, n: nat)
    requires Tree(m) && Modules(m) <= w.ms.Keys && Built(w) && m in w.active && n <= |w.active[m]|
    ensures AllRan(w, Calls(XferUpTo(w, m, n).1), AsksUpTo(w, m, n), Modules(m))
    decreases m.height, n
  {
    hide *;
    BuiltFacts(w);
    if n == 0 {
      NobodyRan(w, m, Modules(m));
    } else {
      XferUpToNext(w, m, n);
      XferOpsNext(w, m, n, null);
      XferUpToRan(w, m, n - 1);
      XferUpToKeepsRuns(w, m, n - 1);
      XferKeepsWorld(w, m, n - 1);
      var a, v := w.active[m][n - 1], XferUpTo(w, m, n - 1).0;
      BuiltFacts(v);
      XferRan(v, a);
      LogSplit(XferUpTo(w, m, n - 1).1, XferPass(v, a).1);
      AllRanThen(w, v, Calls(XferUpTo(w, m, n - 1).1), Calls(XferPass(v, a).1), AsksUpTo(w, m, n - 1), Asks(v, a),
                 Modules(a), Modules(m));
    }
  }

  /** `Xfer` calls only modules of the subtree whose flag is set, and only a called module can ask. */
  lemma {:induction false} XferRan<T, L>(w: World<T, L>, m: Module<T, L>)
    requires Tree(m) && Modules(m) <= w.ms.Keys && Built(w) && ActiveInside(w) && m in w.active
    ensures AllRan(w, Calls(XferPass(w, m).1), Asks(w, m), Modules(m))
    decreases m.height, |w.active[m]| + 1
  {
    hide *;
    BuiltFacts(w);
    InOwnModules(m);
    var v := XferStages(w, m);
    var v' := XferOpsParts(w, m, null);
    var n := |w.active[m]|;
    XferTurnKeepsRuns(w, m);
    TurnRan(w, m, Modules(m));
    XferUpToRan(v, m, n);
    LogSplit(XferTurn(w, m).1, XferUpTo(v, m, n).1);
    AllRanThen(w, v, Calls(XferTurn(w, m).1), Calls(XferUpTo(v, m, n).1), TurnAsks(w, m), AsksUpTo(v, m, n),
               Modules(m), Modules(m));
  }

  lemma {:induction false} NobodyAsks<T, L>(w: World<T, L>, roots: seq<Module<T, L>>)
    requires Registered(w, roots)
    ensures AllRan(w, Calls(XferAll(w, roots, 0).1), AllAsks(w, roots, 0), ModulesOf(roots, 0))
  {
  }

  lemma {:induction false} XferAllRan<T, L>(w: World<T, L>, roots: seq<Module<T, L>>, n: nat)
    requires Registered(w, roots) && n <= |roots|
    ensures AllRan(w, Calls(XferAll(w, roots, n).1), AllAsks(w, roots, n), ModulesOf(roots, n))
  {
    hide *;
    if n == 0 {
      NobodyAsks(w, roots);
    } else {
      var v, c := XferAll(w, roots, n - 1).0, roots[n - 1];
      XferAllRan(w, roots, n - 1);
      XferAllNext(w, roots, n - 1);
      AllOpsNext(w, roots, n - 1, null);
      ModulesOfNext(roots, n);
      XferRan(v, c);
      XferAllKeepsRuns(w, roots, n - 1);
      RanAgain(v, Calls(XferPass(v, c).1), Asks(v, c), Modules(c), ModulesOf(roots, n));
      RanAgain(w, Calls(XferAll(w, roots, n - 1).1), AllAsks(w, roots, n - 1),
               ModulesOf(roots, n - 1), ModulesOf(roots, n));
      LogSplit(XferAll(w, roots, n - 1).1, XferPass(v, c).1);
      AllRanThen(w, v, Calls(XferAll(w, roots, n - 1).1), Calls(XferPass(v, c).1), AllAsks(w, roots, n - 1), Asks(v, c),
                 ModulesOf(roots, n), ModulesOf(roots, n));
    }
  }

  lemma {:induction false} RanAgain<T, L>(w: World<T, L>, calls: seq<Module<T, L>>, asks: set<Module<T, L>>,
                                          less: set<Module<T, L>>, ms: set<Module<T, L>>)
    requires AllRan(w, calls, asks, less) && less <= ms
    ensures AllRan(w, calls, asks, ms)
  {
  }

  lemma {:induction false} RanIn<T, L>(w: World<T, L>, calls: seq<Module<T, L>>, asks: set<Module<T, L>>,
                                       ms: set<Module<T, L>>, x: Module<T, L>)
    requires AllRan(w, calls, asks, ms) && (x in calls || x in asks)
    ensures x in calls && x in ms && x in w.ms && w.ms[x].ran
  {
  }

  /** For every wiring, `XferSelf` runs only for modules whose `WorkSelf` ran in the same cycle. */
  lemma {:induction false} XferOnlyWhereWorkRan<T, L>(w: World<T, L>, roots: seq<Module<T, L>>, x: Module<T, L>)
    requires Registered(w, roots) && Apart(roots) && x in Calls(Transferred(w, roots).1)
    ensures x in ModulesOf(roots, |roots|) && x in Calls(Worked(w, roots).1)
  {
    hide *;
    CycleParts(w, roots, null);
    var v, n := Worked(w, roots).0, |roots|;
    XferAllRan(v, roots, n);
    RanIn(v, Calls(XferAll(v, roots, n).1), AllAsks(v, roots, n), ModulesOf(roots, n), x);
    RanFlagExactly(w, roots, x);
  }

  // ---------- Requests ----------

  lemma {:induction false} ForcedHasEvent<T, L>(w: World<T, L>, x: Module<T, L>)
    requires x in w.ms && w.ms[x].force
    ensures HasEvent(w, x)
  {
  }

  /** A module with an activation request, at any depth, runs in the next `Work`. */
  lemma {:induction false} RequestRuns<T, L>(w: World<T, L>, roots: seq<Module<T, L>>, x: Module<T, L>)
    requires Registered(w, roots) && Apart(roots) && x in ModulesOf(roots, |roots|) && x in w.ms && w.ms[x].force
    ensures x in Calls(Worked(w, roots).1)
  {
    hide Worked, PlainAll, AllOps, WorkedOps, TurnAt;
    var u, pre := TurnInAll(w, roots, |roots|, x, null);
    TurnMeans(w, PlainAll(w, roots, |roots|), AllOps(w, roots, |roots|, null), x, null, u, pre);
    WorkWent(w, roots, null);
  }

  /** A module whose `XferSelf` asks for activation in one cycle runs in the `Work` of the next. */
  lemma {:induction false} XferRequestRuns<T, L>(w: World<T, L>, roots: seq<Module<T, L>>, x: Module<T, L>)
    requires Registered(w, roots) && Apart(roots)
    requires x in AllAsks(Worked(w, roots).0, roots, |roots|)
    ensures x in Calls(Worked(Cycle(w, roots), roots).1)
  {
    hide *;
    CycleParts(w, roots, null);
    var v, n := Worked(w, roots).0, |roots|;
    XferAllRan(v, roots, n);
    RanIn(v, Calls(XferAll(v, roots, n).1), AllAsks(v, roots, n), ModulesOf(roots, n), x);
    XferAllEffect(v, roots, n, null);
    KeptAt(v, XferAll(v, roots, n).0, AllAsks(v, roots, n), x);
    RequestRuns(Cycle(w, roots), roots, x);
  }

  lemma {:induction false} KeptAt<T, L>(v: World<T, L>, v': World<T, L>, asked: set<Module<T, L>>, x: Module<T, L>)
    requires Keeps(v, v', asked) && x in v.ms
    ensures x in v'.ms && v'.ms[x].observedInputs == v.ms[x].observedInputs
    ensures v'.ms[x].observedInners == v.ms[x].observedInners && (x in asked ==> v'.ms[x].force)
  {
  }

  // ---------- No visible change goes unanswered ----------

  /** The lists x watches stay as captured in every cycle in which x does not run. */
  lemma {:induction false} IdleCycleKeeps<T, L>(w: World<T, L>, roots: seq<Module<T, L>>, x: Module<T, L>)
    requires Registered(w, roots) && Apart(roots) && x in ModulesOf(roots, |roots|) && x in w.ms
    requires x !in Calls(Worked(w, roots).1)
    ensures x in Cycle(w, roots).ms
    ensures Cycle(w, roots).ms[x].observedInputs == w.ms[x].observedInputs
    ensures Cycle(w, roots).ms[x].observedInners == w.ms[x].observedInners
  {
    hide *;
    CycleParts(w, roots, null);
    WorkWent(w, roots, null);
    var u, pre := TurnInAll(w, roots, |roots|, x, null);
    TurnMeans(w, PlainAll(w, roots, |roots|), WorkedOps(w, roots, null), x, null, u, pre);
    var v := Worked(w, roots).0;
    XferAllEffect(v, roots, |roots|, null);
    KeptAt(v, Cycle(w, roots), AllAsks(v, roots, |roots|), x);
  }

  /** x does not run in the first n cycles. */
  ghost predicate IdleFor<T, L>(w: World<T, L>, roots: seq<Module<T, L>>, n: nat, x: Module<T, L>)
    requires Registered(w, roots)
  {
    forall j {:trigger Cycles(w, roots, j)} :: 0 <= j < n ==>
      x !in Calls(Worked(Cycles(w, roots, j), roots).1)
  }

  lemma {:induction false} IdleCyclesKeep<T, L>(w: World<T, L>, roots: seq<Module<T, L>>, n: nat, x: Module<T, L>,
                                                queues: seq<SimQueue?<T>>, seen: seq<u64>)
    requires Registered(w, roots) && Apart(roots) && x in ModulesOf(roots, |roots|) && x in w.ms
    requires IdleFor(w, roots, n, x) && Watches(w, x, queues, seen)
    ensures x in Cycles(w, roots, n).ms && Watches(Cycles(w, roots, n), x, queues, seen)
  {
    hide Cycle, Registered, Apart, ModulesOf, Worked, Calls, RunOps, CycleOps;
    RunOpsNext(w, roots, n, null);
    if n > 0 {
      RunOpsNext(w, roots, n - 1, null);
      IdleCyclesKeep(w, roots, n - 1, x, queues, seen);
      IdleCycleKeeps(Cycles(w, roots, n - 1), roots, x);
    }
  }

  lemma {:induction false} ChangesAdd<T>(q: QState<T>, a: seq<Op<T>>, b: seq<Op<T>>)
    requires Sound(q)
    ensures ChangeCount(q, a + b) == ChangeCount(q, a) + ChangeCount(Run(q, a), b)
  {
    if b == [] {
      assert a + b == a;
    } else {
      var n := |b| - 1;
      ChangesAdd(q, a, b[..n]);
      RunSplit(q, a, b[..n]);
      assert (a + b)[..|a + b| - 1] == a + b[..n];
    }
  }

  lemma {:induction false} PartsNoReset<T>(a: seq<Op<T>>, b: seq<Op<T>>)
    ensures NoReset(a + b) <==> NoReset(a) && NoReset(b)
  {
    if NoReset(a + b) {
      assert forall k :: 0 <= k < |a| ==> a[k] == (a + b)[k];
      assert forall k :: 0 <= k < |b| ==> b[k] == (a + b)[|a| + k];
    }
  }

  /** A queue whose visible contents differ has changed at least once. */
  lemma {:induction false} DifferentHasChanged<T>(q: QState<T>, a: seq<Op<T>>, b: seq<Op<T>>)
    requires Sound(q) && NoReset(a + b) && Run(q, a).readQ != q.readQ
    ensures NoReset(a) && 0 < ChangeCount(q, a) <= ChangeCount(q, a + b)
  {
    PartsNoReset(a, b);
    ChangesAdd(q, a, b);
    EpochCountsChanges(q, a);
  }

  /** From a capture in world w0, seen at the cycle boundary v: if after n cycles without a turn of x the
      visible contents of a watched queue are not those of the capture, x has an event then, and its
      `WorkSelf` is called in the next `Work`. `since` are the operations between capture and v. */
  lemma {:induction false} WakeFrom<T, L>(
    w0: World<T, L>, v: World<T, L>, roots: seq<Module<T, L>>, n: nat, x: Module<T, L>,
    queues: seq<SimQueue?<T>>, k: nat, since: seq<Op<T>>)
    requires Registered(v, roots) && Apart(roots) && x in ModulesOf(roots, |roots|) && x in v.ms
    requires IdleFor(v, roots, n, x)
    requires k < |queues| && queues[k] != null && queues[k] in v.qs
    requires Watches(v, x, queues, Epochs(w0, queues)) && Q(v, queues[k]) == Run(Q(w0, queues[k]), since)
    requires
      var all := since + RunOps(v, roots, n, queues[k]) + WorkedOps(Cycles(v, roots, n), roots, queues[k]);
      NoReset(all) && ChangeCount(Q(w0, queues[k]), all) < TWO_64
    requires Q(Cycles(v, roots, n), queues[k]).readQ != Q(w0, queues[k]).readQ
    ensures HasEvent(Cycles(v, roots, n), x)
    ensures x in Calls(Worked(Cycles(v, roots, n), roots).1)
  {
    hide *;
    CyclesRegistered(v, roots, n);
    var q, vn := queues[k], Cycles(v, roots, n);
    var first, pass := since + RunOps(v, roots, n, q), WorkedOps(vn, roots, q);
    IdleCyclesKeep(v, roots, n, x, queues, Epochs(w0, queues));
    RunWent(v, roots, n, q);
    QSplit(w0, v, vn, q, since, RunOps(v, roots, n, q));
    DifferentHasChanged(Q(w0, q), first, pass);
    ChangesWake(w0, vn, x, queues, k, first);
    WorkWent(vn, roots, q);
    var u, pre := TurnInAll(vn, roots, |roots|, x, q);
    TurnMeans(vn, PlainAll(vn, roots, |roots|), pass, x, q, u, pre);
    TurnPrefix(vn, PlainAll(vn, roots, |roots|), pass, x, q, u, pre);
    var rest := pass[|pre|..];
    assert first + pass == (first + pre) + rest;
    QSplit(w0, vn, u, q, first, pre);
    ChangesAdd(Q(w0, q), first, pre);
    ChangesAdd(Q(w0, q), first + pre, rest);
    PartsNoReset(first + pre, rest);
    WatchesSame(vn, u, x, queues, Epochs(w0, queues));
    ChangesWake(w0, u, x, queues, k, first + pre);
  }

  lemma {:induction false} QSplit<T, L>(w0: World<T, L>, v: World<T, L>, v': World<T, L>, q: SimQueue<T>,
                                        a: seq<Op<T>>, b: seq<Op<T>>)
    requires Q(v, q) == Run(Q(w0, q), a) && Went(v, v', q, b) && q in v.qs
    ensures q in v'.qs && Q(v', q) == Run(Q(w0, q), a + b)
  {
    RunSplit(Q(w0, q), a, b);
  }

  lemma {:induction false} TurnPrefix<T, L>(w: World<T, L>, r: (World<T, L>, seq<Event<T, L>>), ops: seq<Op<T>>,
                                            x: Module<T, L>, q: SimQueue?<T>, u: World<T, L>, pre: seq<Op<T>>)
    requires TurnAt(w, r, ops, x, q, u, pre)
    ensures |pre| <= |ops| && ops[..|pre|] == pre && u.qs.Keys == w.qs.Keys
    ensures pre + TurnOps(u, x, q) <= ops && r.0.qs.Keys == w.qs.Keys
  {
    assert (pre + TurnOps(u, x, q))[..|pre|] == pre;
  }

  lemma {:induction false} WatchesSame<T, L>(w: World<T, L>, u: World<T, L>, x: Module<T, L>,
                                             queues: seq<SimQueue?<T>>, seen: seq<u64>)
    requires x in w.ms && x in u.ms && u.ms[x] == w.ms[x] && Watches(w, x, queues, seen)
    ensures Watches(u, x, queues, seen)
  {
  }

  lemma {:induction false} RunOpsFront<T, L>(w: World<T, L>, roots: seq<Module<T, L>>, n: nat, q: SimQueue?<T>)
    requires Registered(w, roots)
    ensures Cycles(Cycle(w, roots), roots, n) == Cycles(w, roots, n + 1)
    ensures RunOps(w, roots, n + 1, q) == CycleOps(w, roots, q) + RunOps(Cycle(w, roots), roots, n, q)
  {
    hide *;
    CycleRegistered(w, roots);
    RunOpsNext(w, roots, n, q);
    RunOpsNext(Cycle(w, roots), roots, n, q);
    if n == 0 {
      assert [] + CycleOps(w, roots, q) == CycleOps(w, roots, q) + [];
    } else {
      RunOpsNext(w, roots, n - 1, q);
      RunOpsNext(Cycle(w, roots), roots, n - 1, q);
      RunOpsFront(w, roots, n - 1, q);
      var a, b := RunOps(Cycle(w, roots), roots, n - 1, q), CycleOps(Cycles(w, roots, n), roots, q);
      assert CycleOps(w, roots, q) + a + b == CycleOps(w, roots, q) + (a + b);
    }
  }

  lemma {:induction false} CycleRegistered<T, L>(w: World<T, L>, roots: seq<Module<T, L>>)
    requires Registered(w, roots)
    ensures Registered(Cycle(w, roots), roots) && Cycle(w, roots).ms.Keys == w.ms.Keys
  {
  }

  /** The capture made by the turn of x in this cycle, and the operations on q from there to its end. */
  lemma {:induction false} CapturedInCycle<T, L>(v: World<T, L>, roots: seq<Module<T, L>>, i: nat, x: Module<T, L>,
                                                 queues: seq<SimQueue?<T>>, k: nat)
    returns (w0: World<T, L>, before: seq<Op<T>>, since: seq<Op<T>>)
    requires Registered(v, roots) && Apart(roots) && x in ModulesOf(roots, |roots|)
    requires i < |Worked(v, roots).1| && Worked(v, roots).1[i].Ran? && Worked(v, roots).1[i].m == x
    requires (queues == x.inputs || queues == x.inners) && k < |queues| && queues[k] != null && queues[k] in v.qs
    ensures x in v.ms && x in Cycle(v, roots).ms && queues[k] in Cycle(v, roots).qs
    ensures w0.qs == Worked(v, roots).1[i].after && Watches(Cycle(v, roots), x, queues, Epochs(w0, queues))
    ensures CycleOps(v, roots, queues[k]) == before + since
    ensures Q(w0, queues[k]) == Run(Q(v, queues[k]), before) && queues[k] in w0.qs
    ensures Q(Cycle(v, roots), queues[k]) == Run(Q(w0, queues[k]), since)
  {
    hide *;
    CycleRegistered(v, roots);
    var q := queues[k];
    var pass := WorkedOps(v, roots, q);
    CycleParts(v, roots, q);
    WorkWent(v, roots, q);
    var u, pre := TurnInAll(v, roots, |roots|, x, q);
    TurnMeans(v, PlainAll(v, roots, |roots|), pass, x, q, u, pre);
    TurnPrefix(v, PlainAll(v, roots, |roots|), pass, x, q, u, pre);
    CalledAt(Worked(v, roots).1, i, x);
    VisitWent(u, x, q);
    RunningVisit(u, x);
    TurnCaptures(u, x);
    w0 := SelfTurn(u, x);
    before := pre + TurnOps(u, x, q);
    WentThen(v, u, w0, q, pre, TurnOps(u, x, q));
    WentAt(v, w0, q, before);
    var xfer := XferAllOps(Worked(v, roots).0, roots, |roots|, q);
    var rest := pass[|before|..];
    since := rest + xfer;
    assert pass == before + rest;
    assert before + since == pass + xfer;
    CycleWent(v, roots, q);
    WentAt(v, Cycle(v, roots), q, before + since);
    QSound(v, q);
    RunSplit(Q(v, q), before, since);
    XferAllEffect(Worked(v, roots).0, roots, |roots|, q);
    WatchesKept(w0, Worked(v, roots).0, Cycle(v, roots), x, queues, AllAsks(Worked(v, roots).0, roots, |roots|));
  }

  lemma {:induction false} CalledAt<T, L>(log: seq<Event<T, L>>, i: nat, x: Module<T, L>)
    requires i < |log| && log[i].Ran? && log[i].m == x
    ensures x in Calls(log)
  {
    CallsAreRuns(log, x);
  }

  lemma {:induction false} RunningVisit<T, L>(u: World<T, L>, x: Module<T, L>)
    requires x in u.ms && HasEvent(u, x)
    ensures Visit(u, x).0 == SelfTurn(u, x)
  {
  }

  lemma {:induction false} WentAt<T, L>(w: World<T, L>, w': World<T, L>, q: SimQueue<T>, ops: seq<Op<T>>)
    requires Went(w, w', q, ops) && q in w.qs
    ensures q in w'.qs && Q(w', q) == Run(Q(w, q), ops)
  {
  }

  lemma {:induction false} QSound<T, L>(w: World<T, L>, q: SimQueue<T>)
    ensures Sound(Q(w, q))
  {
  }

  lemma {:induction false} WatchesKept<T, L>(w0: World<T, L>, v: World<T, L>, v': World<T, L>, x: Module<T, L>,
                                             queues: seq<SimQueue?<T>>, asked: set<Module<T, L>>)
    requires x in w0.ms && x in v.ms && v.ms[x] == w0.ms[x] && Keeps(v, v', asked)
    requires Watches(w0, x, queues, Epochs(w0, queues))
    ensures x in v'.ms && Watches(v', x, queues, Epochs(w0, queues))
  {
  }

  /** Event i of the `Work` is the turn of x, and it left queue q like this. */
  ghost predicate TookTurn<T, L>(w: World<T, L>, roots: seq<Module<T, L>>, i: nat, x: Module<T, L>,
                                 q: SimQueue<T>, left: QState<T>)
    requires Registered(w, roots)
  {
    var log := Worked(w, roots).1;
    i < |log| && log[i].Ran? && log[i].m == x && q in log[i].after && log[i].after[q] == left
  }

  /** In n cycles and one more `Work` queue q is not reset and changes fewer than 2^64 times. */
  ghost predicate FewChanges<T, L>(w: World<T, L>, roots: seq<Module<T, L>>, n: nat, q: SimQueue<T>)
    requires Registered(w, roots)
  {
    var all := RunOps(w, roots, n, q) + WorkedOps(Cycles(w, roots, n), roots, q);
    NoReset(all) && ChangeCount(Q(w, q), all) < TWO_64
  }

  /** No visible change goes unanswered. If x took its last turn in cycle c and n - 1 cycles without a
      turn followed, and the visible contents of a queue it watches now differ from those its turn left
      (fewer than 2^64 changes since that cycle began, and no reset), then x has an event now, and its
      `WorkSelf` is called in the coming `Work`. */
  lemma {:induction false} VisibleChangeRuns<T, L>(
    w: World<T, L>, roots: seq<Module<T, L>>, c: nat, n: nat, i: nat, x: Module<T, L>, queues: seq<SimQueue?<T>>,
    k: nat, left: QState<T>)
    requires Registered(w, roots) && Apart(roots) && x in ModulesOf(roots, |roots|) && n > 0
    requires (queues == x.inputs || queues == x.inners) && k < |queues| && queues[k] != null && queues[k] in w.qs
    requires TookTurn(Cycles(w, roots, c), roots, i, x, queues[k], left)
    requires IdleFor(Cycles(w, roots, c + 1), roots, n - 1, x)
    requires FewChanges(Cycles(w, roots, c), roots, n, queues[k])
    requires Q(Cycles(w, roots, c + n), queues[k]).readQ != left.readQ
    ensures x in Cycles(w, roots, c + n).ms && HasEvent(Cycles(w, roots, c + n), x)
    ensures x in Calls(Worked(Cycles(w, roots, c + n), roots).1)
  {
    hide *;
    var q, v := queues[k], Cycles(w, roots, c);
    CyclesRegistered(w, roots, c);
    TurnTaken(v, roots, i, x, q, left);
    ChangesAre(v, roots, n, q);
    RunWent(w, roots, c, q);
    WentAt(w, v, q, RunOps(w, roots, c, q));
    CyclesCompose(w, roots, c, n);
    RunOpsNext(w, roots, c, q);
    CycleRegistered(v, roots);
    RunOpsFront(v, roots, n - 1, q);
    var w0, before, since := CapturedInCycle(v, roots, i, x, queues, k);
    QAt(w0, q);
    QSound(v, q);
    var later, pass := RunOps(Cycle(v, roots), roots, n - 1, q), WorkedOps(Cycles(w, roots, c + n), roots, q);
    assert before + since + later + pass == before + (since + later + pass);
    ChangesAdd(Q(v, q), before, since + later + pass);
    PartsNoReset(before, since + later + pass);
    WakeFrom(w0, Cycle(v, roots), roots, n - 1, x, queues, k, since);
  }

  lemma {:induction false} TurnTaken<T, L>(w: World<T, L>, roots: seq<Module<T, L>>, i: nat, x: Module<T, L>,
                                           q: SimQueue<T>, left: QState<T>)
    requires Registered(w, roots) && TookTurn(w, roots, i, x, q, left)
    ensures
      var log := Worked(w, roots).1;
      i < |log| && log[i].Ran? && log[i].m == x && q in log[i].after && log[i].after[q] == left
  {
  }

  lemma {:induction false} ChangesAre<T, L>(w: World<T, L>, roots: seq<Module<T, L>>, n: nat, q: SimQueue<T>)
    requires Registered(w, roots) && FewChanges(w, roots, n, q)
    ensures
      var all := RunOps(w, roots, n, q) + WorkedOps(Cycles(w, roots, n), roots, q);
      NoReset(all) && ChangeCount(Q(w, q), all) < TWO_64
  {
  }

  lemma {:induction false} QAt<T, L>(w: World<T, L>, q: SimQueue<T>)
    requires q in w.qs
    ensures Q(w, q) == w.qs[q]
  {
  }

  /** The same from a capture made by a reset, or by any other state in which x is at rest. */
  lemma {:induction false} VisibleChangeRunsFromRest<T, L>(
    v: World<T, L>, roots: seq<Module<T, L>>, n: nat, x: Module<T, L>, queues: seq<SimQueue?<T>>, k: nat)
    requires Registered(v, roots) && Apart(roots) && x in ModulesOf(roots, |roots|) && x in v.ms
    requires AtRest(v, x) && IdleFor(v, roots, n, x)
    requires (queues == x.inputs || queues == x.inners) && k < |queues| && queues[k] != null && queues[k] in v.qs
    requires FewChanges(v, roots, n, queues[k])
    requires Q(Cycles(v, roots, n), queues[k]).readQ != Q(v, queues[k]).readQ
    ensures x in Cycles(v, roots, n).ms && HasEvent(Cycles(v, roots, n), x)
    ensures x in Calls(Worked(Cycles(v, roots, n), roots).1)
  {
    hide *;
    RestWatches(v, x, queues);
    ChangesAre(v, roots, n, queues[k]);
    CyclesRegistered(v, roots, n);
    NoOps(Q(v, queues[k]));
    assert [] + RunOps(v, roots, n, queues[k]) == RunOps(v, roots, n, queues[k]);
    WakeFrom(v, v, roots, n, x, queues, k, []);
  }

  lemma {:induction false} RestWatches<T, L>(v: World<T, L>, x: Module<T, L>, queues: seq<SimQueue?<T>>)
    requires x in v.ms && AtRest(v, x) && (queues == x.inputs || queues == x.inners)
    ensures Watches(v, x, queues, Epochs(v, queues))
  {
  }

  lemma {:induction false} NoOps<T>(q: QState<T>)
    requires Sound(q)
    ensures Run(q, []) == q
  {
  }
}

/** A tree that is not in order: one module reads a queue that its earlier sibling owns. */
module UnwiredTree {
  import opened Words
  import W = Wrappers
  import opened QueueSpec
  import opened SimQueues
  import opened Scheduler
  import opened SchedulerTheorems
  import opened Wiring
  import opened WorkXferPairing
  import opened SchedulerWake
  import opened SystemCycles

  type Node = Module<int, int>
  type IntQueue = SimQueue<int>

  function Idle(local: int, views: seq<W.Option<QState<int>>>): SelfStep<int, int> {
    SelfStep(local, [], false)
  }

  /** root above mid, mid above owner and reader; owner owns q, reader reads it. */
  ghost predicate Shape(root: Node, mid: Node, owner: Node, reader: Node, q: IntQueue) {
    && root.submodules == [mid] && mid.submodules == [owner, reader]
    && owner.submodules == [] && reader.submodules == []
    && root.height == 2 && mid.height == 1 && owner.height == 0 && reader.height == 0
    && root.ownedQueues == [] && mid.ownedQueues == [] && owner.ownedQueues == [q] && reader.ownedQueues == []
    && root.Ports() == [] && mid.Ports() == [] && owner.Ports() == []
    && reader.inputs == [q] && reader.outputs == [] && reader.inners == []
    && root != mid && root != owner && root != reader && mid != owner && mid != reader && owner != reader
    && reader.workSelf == Idle && reader.xferSelf == Idle
  }

  /** Every module at rest, and one entry on its way in q. */
  ghost function Start(root: Node, mid: Node, owner: Node, reader: Node, q: IntQueue): World<int, int> {
    var rest := MState([], [], false, false, 0);
    World(map[root := rest, mid := rest, owner := rest, reader := rest.(observedInputs := [0])],
          map[q := QState(1, [7], [], [1], 1, false, 0)],
          map[root := [], mid := [], owner := [], reader := []])
  }

  lemma {:induction false} Leaf(m: Node, s: Sight)
    requires m.submodules == []
    ensures Tree(m) && Modules(m) == {m} && Owned(m) == QueueSet(m.ownedQueues) && Ordered(s, m)
    ensures Seen(s, m) == SightSet(s, m) && (|m.ownedQueues| <= 1 ==> Distinct(m))
  {
    assert ModulesUpTo(m, 0) == {} && OwnedUpTo(m, 0) == {} && SeenUpTo(s, m, 0) == {};
  }

  lemma {:induction false} NoQueues<T>(qs: seq<SimQueue<T>>, q: SimQueue<T>)
    ensures qs == [] ==> QueueSet(qs) == {}
    ensures qs == [q] ==> QueueSet(qs) == {q}
  {
  }

  /** A module that owns no queue, above two subtrees that share nothing. */
  lemma {:induction false} AboveTwo(m: Node, a: Node, b: Node, s: Sight)
    requires m.submodules == [a, b] && Tree(a) && Tree(b) && a.height < m.height && b.height < m.height
    requires m.ownedQueues == [] && m !in Modules(a) + Modules(b) && Distinct(a) && Distinct(b)
    requires Modules(a) !! Modules(b) && Owned(a) !! Owned(b)
    ensures Tree(m) && ModulesUpTo(m, 1) == Modules(a) && ModulesUpTo(m, 2) == Modules(a) + Modules(b)
    ensures Modules(m) == {m} + Modules(a) + Modules(b) && Distinct(m)
    ensures OrderedBelow(s, m) <==> Ordered(s, a) && Ordered(s, b)
    ensures Ordered(s, m) <==> Ordered(s, a) && Ordered(s, b) && Seen(s, b) !! Owned(a)
  {
    assert Tree(m) && m.submodules[0] == a && m.submodules[1] == b;
    assert ModulesUpTo(m, 0) == {} && OwnedUpTo(m, 0) == {};
    assert ModulesUpTo(m, 1) == Modules(a) && OwnedUpTo(m, 1) == Owned(a);
  }

  lemma {:induction false} AboveOne(m: Node, c: Node, s: Sight)
    requires m.submodules == [c] && Tree(c) && c.height < m.height
    requires m.ownedQueues == [] && m !in Modules(c) && Distinct(c)
    ensures Tree(m) && Modules(m) == {m} + Modules(c) && Distinct(m)
    ensures OrderedBelow(s, m) <==> Ordered(s, c)
  {
    assert Tree(m) && m.submodules[0] == c;
    assert ModulesUpTo(m, 0) == {} && OwnedUpTo(m, 0) == {};
    assert ModulesUpTo(m, 1) == Modules(c);
  }

  lemma {:induction false} ShapeParts(root: Node, mid: Node, owner: Node, reader: Node, q: IntQueue)
    requires Shape(root, mid, owner, reader, q)
    ensures root.submodules == [mid] && mid.submodules == [owner, reader]
    ensures owner.submodules == [] && reader.submodules == []
    ensures root.height == 2 && mid.height == 1 && owner.height == 0 && reader.height == 0
    ensures root.ownedQueues == [] && mid.ownedQueues == [] && owner.ownedQueues == [q] && reader.ownedQueues == []
    ensures root !in {mid, owner, reader} && mid !in {owner, reader} && owner != reader
    ensures q in SightSet(Watched, reader) && q in reader.Ports()
  {
  }

  lemma {:induction false} ShapeTree(root: Node, mid: Node, owner: Node, reader: Node, q: IntQueue)
    requires Shape(root, mid, owner, reader, q)
    ensures Tree(owner) && Tree(reader) && Tree(mid) && Tree(root) && Distinct(root)
    ensures Modules(owner) == {owner} && Modules(reader) == {reader}
    ensures ModulesUpTo(mid, 1) == {owner} && ModulesUpTo(mid, 2) == {owner, reader}
    ensures Modules(mid) == {mid, owner, reader} && Modules(root) == {root, mid, owner, reader}
    ensures !OrderedBelow(Watched, root) && OrderedBelow(Watched, mid)
  {
    hide *;
    ShapeParts(root, mid, owner, reader, q);
    Leaf(owner, Watched);
    Leaf(reader, Watched);
    NoQueues(owner.ownedQueues, q);
    NoQueues(reader.ownedQueues, q);
    AboveTwo(mid, owner, reader, Watched);
    AboveOne(root, mid, Watched);
  }

  lemma {:induction false} ShapeRegistered(root: Node, mid: Node, owner: Node, reader: Node, q: IntQueue)
    requires Shape(root, mid, owner, reader, q)
    ensures Registered(Start(root, mid, owner, reader, q), [root])
  {
    StartBuilt(root, mid, owner, reader, q);
    hide *;
    ShapeTree(root, mid, owner, reader, q);
    OneRegistered(Start(root, mid, owner, reader, q), root);
  }

  lemma {:induction false} StartBuilt(root: Node, mid: Node, owner: Node, reader: Node, q: IntQueue)
    ensures Built(Start(root, mid, owner, reader, q))
    ensures Start(root, mid, owner, reader, q).ms.Keys == {root, mid, owner, reader}
  {
  }

  lemma {:induction false} OneRegistered(w: World<int, int>, root: Node)
    requires Built(w) && Tree(root) && Distinct(root) && Modules(root) <= w.ms.Keys
    ensures Registered(w, [root])
  {
    hide Built, Distinct;
  }

  /** A port on a queue that neither the module nor its parent owns. */
  lemma {:induction false} NotWired(mid: Node, reader: Node, k: nat, q: IntQueue)
    requires Tree(mid) && k < |mid.submodules| && mid.submodules[k] == reader && q in reader.Ports()
    requires q !in mid.ownedQueues && q !in reader.ownedQueues
    ensures !Wired(mid, {})
  {
    assert !Wired(reader, {} + QueueSet(mid.ownedQueues));
  }

  lemma {:induction false} NoTurn(w: World<int, int>, m: Node)
    requires m in w.ms && !HasEvent(w, m) && !w.ms[m].ran
    ensures Visit(w, m) == (w, [])
  {
    assert w.ms[m := w.ms[m]] == w.ms;
  }

  lemma {:induction false} NoEvent(w: World<int, int>, m: Node)
    requires m in w.ms && m.Ports() == [] && w.ms[m] == MState([], [], false, false, 0)
    ensures !HasEvent(w, m)
  {
    assert |m.Ports()| == |m.inputs| + |m.outputs| + |m.inners|;
    assert m.inputs == [] && m.inners == [];
  }

  lemma {:induction false} ReaderEvent(w: World<int, int>, reader: Node, q: IntQueue, epoch: u64)
    requires reader in w.ms && w.ms[reader] == MState([0], [], false, false, 0)
    requires reader.inputs == [q] && reader.inners == [] && Q(w, q).epoch == epoch
    ensures HasEvent(w, reader) <==> epoch != 0
  {
    assert Epochs(w, reader.inputs) == [epoch] && Epochs(w, reader.inners) == [];
  }

  /** The queue's own step makes the entry visible and moves the epoch. */
  lemma {:induction false} QueueSteps(w: World<int, int>, q: IntQueue)
    requires q in w.qs && w.qs[q] == QState(1, [7], [], [1], 1, false, 0)
    ensures
      var r := AdvanceOwned(w, [q]);
      r.0.ms == w.ms && q in r.0.qs && Q(r.0, q).epoch == 1 && r.0.ms.Keys == w.ms.Keys
  {
    var one := [q];
    assert one[..0] == [];
    assert AdvanceOwned(w, one[..0]).0 == w;
    assert AdvanceOwned(w, one).0 == Advance(w, q);
    assert CountDown([1]) == [0] && DueCount([0]) == 1;
  }

  lemma {:induction false} LeafPass(w: World<int, int>, m: Node)
    requires m.submodules == [] && Tree(m) && Modules(m) <= w.ms.Keys && m in w.ms && !HasEvent(w, m) && !w.ms[m].ran
    ensures PlainPass(w, m).0 == AdvanceOwned(w, m.ownedQueues).0
  {
    NoTurn(w, m);
  }

  lemma {:induction false} CalledLast(a: seq<Event<int, int>>, b: seq<Event<int, int>>, c: seq<Event<int, int>>,
                                      x: Node)
    requires x in Calls(b)
    ensures x in Calls(a + b + c)
  {
    LogSplit(a, b);
    LogSplit(a + b, c);
  }

  /** Nothing turns before the reader, and the owner's pass leaves it with an event. */
  lemma {:induction false} ReaderWakes(root: Node, mid: Node, owner: Node, reader: Node, q: IntQueue)
    requires Shape(root, mid, owner, reader, q)
    ensures
      var w := Start(root, mid, owner, reader, q);
      && root in w.ms && mid in w.ms && Visit(w, root) == (w, []) && Visit(w, mid) == (w, [])
      && Tree(owner) && Modules(owner) <= w.ms.Keys && Tree(reader) && Tree(mid)
      && Modules(mid) <= w.ms.Keys && Modules(reader) <= PlainPass(w, owner).0.ms.Keys
      && reader in PlainPass(w, owner).0.ms && HasEvent(PlainPass(w, owner).0, reader)
  {
    hide Distinct, Ordered, OrderedBelow, Registered;
    var w := Start(root, mid, owner, reader, q);
    ShapeTree(root, mid, owner, reader, q);
    NoEvent(w, root);
    NoEvent(w, mid);
    NoEvent(w, owner);
    NoTurn(w, root);
    NoTurn(w, mid);
    LeafPass(w, owner);
    QueueSteps(w, q);
    ReaderEvent(PlainPass(w, owner).0, reader, q, 1);
  }

  lemma {:induction false} ReaderCalled(root: Node, mid: Node, owner: Node, reader: Node, q: IntQueue)
    requires Shape(root, mid, owner, reader, q)
    requires Tree(root) && Modules(root) <= Start(root, mid, owner, reader, q).ms.Keys
    ensures reader in Calls(PlainPass(Start(root, mid, owner, reader, q), root).1)
  {
    hide *;
    var w := Start(root, mid, owner, reader, q);
    ReaderWakes(root, mid, owner, reader, q);
    var v := PlainPass(w, owner).0;
    var v1, v2 := PlainStages(v, reader);
    VisitLog(v, reader);
    assert [] + Visit(v, reader).1 == Visit(v, reader).1;
    var log1, log2 := Visit(v, reader).1, PlainChildren(v1, reader, |reader.submodules|).1;
    var log3 := AdvanceOwned(v2, reader.ownedQueues).1;
    CalledLast([], log1, log2 + log3, reader);
    assert log1 + log2 + log3 == [] + log1 + (log2 + log3);
    CalledInMid(root, mid, owner, reader, q, w, v);
  }

  lemma {:induction false} CalledInMid(root: Node, mid: Node, owner: Node, reader: Node, q: IntQueue,
                                       w: World<int, int>, v: World<int, int>)
    requires Shape(root, mid, owner, reader, q) && Tree(root) && Tree(mid) && Tree(owner) && Tree(reader)
    requires Modules(root) <= w.ms.Keys && Modules(mid) <= w.ms.Keys && Modules(owner) <= w.ms.Keys
    requires Modules(reader) <= v.ms.Keys
    requires root in w.ms && mid in w.ms && Visit(w, root) == (w, []) && Visit(w, mid) == (w, [])
    requires v == PlainPass(w, owner).0 && reader in Calls(PlainPass(v, reader).1)
    ensures reader in Calls(PlainPass(w, root).1)
  {
    ChildCalled(w, mid, 1, reader);
    ChildCalled(w, root, 0, reader);
  }

  /** What the last child of a quiet module calls, its pass calls. */
  lemma {:induction false} ChildCalled(w: World<int, int>, m: Node, k: nat, x: Node)
    requires Tree(m) && |m.submodules| == k + 1 && Modules(m) <= w.ms.Keys && m in w.ms && Visit(w, m) == (w, [])
    requires Modules(m.submodules[k]) <= PlainChildren(w, m, k).0.ms.Keys
    requires x in Calls(PlainPass(PlainChildren(w, m, k).0, m.submodules[k]).1)
    ensures x in Calls(PlainPass(w, m).1)
  {
    hide *;
    var w1, w2 := PlainStages(w, m);
    PlainChildrenNext(w, m, k);
    CalledLast(PlainChildren(w, m, k).1, PlainPass(PlainChildren(w, m, k).0, m.submodules[k]).1, [], x);
    var log := PlainChildren(w, m, k).1 + PlainPass(PlainChildren(w, m, k).0, m.submodules[k]).1;
    assert log + [] == log;
    CalledLast([], PlainChildren(w1, m, k + 1).1, AdvanceOwned(w2, m.ownedQueues).1, x);
  }

  lemma {:induction false} MidNotPending(root: Node, mid: Node, owner: Node, reader: Node, q: IntQueue)
    requires Shape(root, mid, owner, reader, q) && Tree(mid)
    requires Modules(mid) <= Start(root, mid, owner, reader, q).ms.Keys
    ensures !Pending(Start(root, mid, owner, reader, q), mid)
  {
    var w := Start(root, mid, owner, reader, q);
    ShapeTree(root, mid, owner, reader, q);
    NoEvent(w, mid);
    NoEvent(w, owner);
    ReaderEvent(w, reader, q, 0);
    hide *;
    PendingExactly(w, mid);
  }

  lemma {:induction false} RootSkips(root: Node, mid: Node, owner: Node, reader: Node, q: IntQueue)
    requires Shape(root, mid, owner, reader, q) && Registered(Start(root, mid, owner, reader, q), [root])
    requires Tree(root) && Modules(root) <= Start(root, mid, owner, reader, q).ms.Keys
    ensures
      var v := WorkPass(Start(root, mid, owner, reader, q), root).0;
      root in v.ms && root in v.active && !v.ms[root].ran && v.active[root] == []
  {
    var w := Start(root, mid, owner, reader, q);
    ShapeTree(root, mid, owner, reader, q);
    NoEvent(w, root);
    NoTurn(w, root);
    MidNotPending(root, mid, owner, reader, q);
    assert w.active[root := []] == w.active;
    assert WithActive(w, root, []) == w && w.active[root] == [] && !w.ms[root].ran && root.submodules[0] == mid;
    assert |root.submodules| == 1;
    hide *;
    ReadyParts(w, root);
    var w1, w2 := WorkStages(w, root);
    NoChildrenFrame(w, root);
    ChildrenNext(w, root, 0);
    ChildTurnFrame(w, root, 0);
    ChildrenFrame(w, root, 1);
    OwnedFrame(w2, root.ownedQueues, {});
  }

  lemma {:induction false} ReadyParts(w: World<int, int>, root: Node)
    requires Registered(w, [root])
    ensures Tree(root) && Distinct(root) && Modules(root) <= w.ms.Keys && Built(w) && root in Modules(root)
    ensures root in w.active
  {
    RegisteredAt(w, [root], 0);
    InOwnModules(root);
  }

  lemma {:induction false} NoXferAtAll(v: World<int, int>, m: Node)
    requires Tree(m) && Modules(m) <= v.ms.Keys && Built(v) && ActiveInside(v) && m in v.ms && m in v.active
    requires !v.ms[m].ran && v.active[m] == []
    ensures XferPass(v, m).1 == []
  {
  }

  /** Here `WorkSelf` of the reader runs and its `XferSelf` does not: a skipped subtree woke up while its
      queues were being advanced. The condition looks at the children of the root only: `mid` itself, as
      the root of a system of its own, pairs in every world. */
  lemma {:induction false} XferMissesReader(root: Node, mid: Node, owner: Node, reader: Node, q: IntQueue)
    requires Shape(root, mid, owner, reader, q)
    ensures
      var w := Start(root, mid, owner, reader, q);
      && Registered(w, [root]) && reader in Calls(Worked(w, [root]).1) && Transferred(w, [root]).1 == []
    ensures Tree(root) && !OrderedBelow(Watched, root)
    ensures Tree(mid) && OrderedBelow(Watched, mid) && !Wired(mid, {})
  {
    var w := Start(root, mid, owner, reader, q);
    hide *;
    ShapeParts(root, mid, owner, reader, q);
    ShapeTree(root, mid, owner, reader, q);
    ShapeRegistered(root, mid, owner, reader, q);
    NotWired(mid, reader, 1, q);
    ReadyParts(w, root);
    OneRoot(w, root);
    EveryPass(w, root);
    ReaderCalled(root, mid, owner, reader, q);
    RootSkips(root, mid, owner, reader, q);
    BuiltFacts(WorkPass(w, root).0);
    NoXferAtAll(WorkPass(w, root).0, root);
  }

  lemma {:induction false} EveryPass(w: World<int, int>, root: Node)
    requires Tree(root) && Modules(root) <= w.ms.Keys
    ensures WorkPass(w, root).1 == PlainPass(w, root).1
  {
    WorkIsPlain(w, w, root);
  }

  /** Such a tree can be built. */
  method BuildUnwired() returns (root: Node, mid: Node, owner: Node, reader: Node, q: IntQueue)
    ensures Shape(root, mid, owner, reader, q)
  {
    q := new SimQueue(1, 1);
    var reset := (local: int) => local;
    owner := new Module([], [], [], [], [q], Idle, Idle, reset, 0, 0);
    reader := new Module([q], [], [], [], [], Idle, Idle, reset, 0, 0);
    mid := new Module([], [], [], [owner, reader], [], Idle, Idle, reset, 0, 1);
    root := new Module([], [], [], [mid], [], Idle, Idle, reset, 0, 2);
  }
}
