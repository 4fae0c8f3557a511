/** Which wirings keep the cycle boundary, and which pair `Xfer` with `Work`: exactly the ones in order. */
module WiringExactly {
  import W = Wrappers
  import opened Words
  import opened QueueSpec
  import opened SimQueues
  import opened Scheduler
  import opened SchedulerTheorems
  import opened Wiring
  import opened CycleBoundary
  import opened WorkXferPairing
  import opened SchedulerWake
  import opened PassHistory
  import opened SystemCycles
  import opened WakeUps
  import opened SelfCalls

  // ---------- A pass without calls ----------

  /** From w to w' nothing ran: each of these queues made its own step, no other moved, and modules differ
      at most in their flag. */
  ghost predicate Still<T, L>(w: World<T, L>, w': World<T, L>, moved: set<SimQueue<T>>) {
    && w'.ms.Keys == w.ms.Keys && w'.qs.Keys == w.qs.Keys
    && (forall x :: x in w.ms ==> w'.ms[x] == w.ms[x].(ran := w'.ms[x].ran))
    && forall q :: q in w.qs ==> w'.qs[q] == if q in moved then Apply(w.qs[q], Op.Work) else w.qs[q]
  }

  lemma {:induction false} StillHere<T, L>(w: World<T, L>)
    ensures Still(w, w, {})
  {
  }

  lemma {:induction false} StillThen<T, L>(a: World<T, L>, b: World<T, L>, c: World<T, L>,
                                           x: set<SimQueue<T>>, y: set<SimQueue<T>>)
    requires Still(a, b, x) && Still(b, c, y) && x !! y
    ensures Still(a, c, x + y)
  {
  }

  lemma {:induction false} StillVisit<T, L>(w: World<T, L>, m: Module<T, L>)
    requires m in w.ms && Calls(Visit(w, m).1) == []
    ensures !HasEvent(w, m) && Still(w, Visit(w, m).0, {}) && Visit(w, m).1 == []
  {
    VisitLog(w, m);
  }

  lemma {:induction false} StillOwned<T, L>(w: World<T, L>, qs: seq<SimQueue<T>>)
    requires NoRepeats(qs)
    ensures Still(w, AdvanceOwned(w, qs).0, QueueSet(qs))
  {
    hide Apply;
    AdvanceOwnedKeys(w, qs);
    if qs != [] {
      var n := |qs| - 1;
      StillOwned(w, qs[..n]);
      StillAdvance(AdvanceOwned(w, qs[..n]).0, qs[n]);
      assert qs == qs[..n] + [qs[n]];
      assert QueueSet(qs) == QueueSet(qs[..n]) + {qs[n]};
      StillThen(w, AdvanceOwned(w, qs[..n]).0, AdvanceOwned(w, qs).0, QueueSet(qs[..n]), {qs[n]});
    }
  }

  lemma {:induction false} StillAdvance<T, L>(w: World<T, L>, q: SimQueue<T>)
    ensures Still(w, Advance(w, q), {q})
  {
  }

  lemma {:induction false} StillChildren<T, L>(w: World<T, L>, m: Module<T, L>, n: nat)
    requires Tree(m) && Distinct(m) && n <= |m.submodules| && Modules(m) <= w.ms.Keys
    requires Calls(PlainChildren(w, m, n).1) == []
    ensures Still(w, PlainChildren(w, m, n).0, OwnedUpTo(m, n))
    decreases m.height, n
  {
    hide *;
    if n == 0 {
      NothingLogged(w, m);
      NoneOwned(m);
      StillHere(w);
    } else {
      ChildOf(Bound, m, n);
      PlainChildrenNext(w, m, n - 1);
      var r1, c := PlainChildren(w, m, n - 1), m.submodules[n - 1];
      LogSplit(r1.1, PlainPass(r1.0, c).1);
      StillChildren(w, m, n - 1);
      StillPass(r1.0, c);
      StillThen(w, r1.0, PlainPass(r1.0, c).0, OwnedUpTo(m, n - 1), Owned(c));
    }
  }

  lemma {:induction false} NoneOwned<T, L>(m: Module<T, L>)
    requires Tree(m)
    ensures OwnedUpTo(m, 0) == {} && ModulesUpTo(m, 0) == {}
  {
  }

  lemma {:induction false} OwnOwned<T, L>(m: Module<T, L>)
    requires Tree(m) && Distinct(m)
    ensures NoRepeats(m.ownedQueues) && OwnedUpTo(m, |m.submodules|) !! QueueSet(m.ownedQueues)
    ensures Owned(m) == OwnedUpTo(m, |m.submodules|) + QueueSet(m.ownedQueues)
  {
  }

  /** A pass in which no `WorkSelf` is called moves its own queues by one step each, and nothing else. */
  lemma {:induction false} StillPass<T, L>(w: World<T, L>, m: Module<T, L>)
    requires Tree(m) && Distinct(m) && Modules(m) <= w.ms.Keys && Calls(PlainPass(w, m).1) == []
    ensures Still(w, PlainPass(w, m).0, Owned(m))
    decreases m.height, |m.submodules| + 1
  {
    hide *;
    InOwnModules(m);
    OwnOwned(m);
    var w1, w2 := PlainStages(w, m);
    var n := |m.submodules|;
    var log1, log2 := Visit(w, m).1, PlainChildren(w1, m, n).1;
    LogSplit(log1 + log2, AdvanceOwned(w2, m.ownedQueues).1);
    LogSplit(log1, log2);
    StillVisit(w, m);
    StillChildren(w1, m, n);
    StillOwned(w2, m.ownedQueues);
    StillThen(w, w1, w2, {}, OwnedUpTo(m, n));
    StillThen(w, w2, PlainPass(w, m).0, {} + OwnedUpTo(m, n), QueueSet(m.ownedQueues));
    assert {} + OwnedUpTo(m, n) + QueueSet(m.ownedQueues) == Owned(m);
  }

  // ---------- An event is answered ----------

  /** These queues are as after a reset, so their own step changes nothing. */
  ghost predicate Resting<T, L>(w: World<T, L>, moved: set<SimQueue<T>>) {
    forall p :: p in moved && p in w.qs ==> Cleared(w.qs[p])
  }

  lemma {:induction false} RestingPart<T, L>(w: World<T, L>, moved: set<SimQueue<T>>, less: set<SimQueue<T>>)
    requires Resting(w, moved) && less <= moved
    ensures Resting(w, less)
  {
  }

  lemma {:induction false} NothingMoves<T, L>(w: World<T, L>, w': World<T, L>, moved: set<SimQueue<T>>)
    requires Still(w, w', moved) && Resting(w, moved)
    ensures w'.qs == w.qs && w'.ms.Keys == w.ms.Keys
  {
    forall p | p in w.qs
      ensures w'.qs[p] == w.qs[p]
    {
      if p in moved {
        ClearedRests(w.qs[p]);
      }
    }
  }

  lemma {:induction false} EventStays<T, L>(w: World<T, L>, w': World<T, L>, moved: set<SimQueue<T>>, x: Module<T, L>)
    requires Still(w, w', moved) && Resting(w, moved) && x in w.ms && HasEvent(w, x)
    ensures x in w'.ms && HasEvent(w', x) && w'.qs == w.qs && w'.ms.Keys == w.ms.Keys
  {
    NothingMoves(w, w', moved);
    EpochsOfQueues(w, w', x.inputs);
    EpochsOfQueues(w, w', x.inners);
  }

  lemma {:induction false} RestingSame<T, L>(w: World<T, L>, w': World<T, L>, moved: set<SimQueue<T>>,
                                             less: set<SimQueue<T>>)
    requires Resting(w, moved) && less <= moved && w'.qs == w.qs
    ensures Resting(w', less)
  {
  }

  lemma {:induction false} NoneResting<T, L>(w: World<T, L>)
    ensures Resting(w, {})
  {
  }

  lemma {:induction false} EventCallsChildren<T, L>(w: World<T, L>, m: Module<T, L>, n: nat, x: Module<T, L>)
    requires Tree(m) && Distinct(m) && n <= |m.submodules| && Modules(m) <= w.ms.Keys
    requires x in ModulesUpTo(m, n) && x in w.ms && HasEvent(w, x) && Resting(w, OwnedUpTo(m, n))
    ensures Calls(PlainChildren(w, m, n).1) != []
    decreases m.height, n
  {
    hide *;
    NoneOwned(m);
    ChildOf(Bound, m, n);
    ChildPlaceOf(m, n, x);
    PlainChildrenNext(w, m, n - 1);
    var r1, c := PlainChildren(w, m, n - 1), m.submodules[n - 1];
    LogSplit(r1.1, PlainPass(r1.0, c).1);
    RestingPart(w, OwnedUpTo(m, n), OwnedUpTo(m, n - 1));
    if x in ModulesUpTo(m, n - 1) {
      EventCallsChildren(w, m, n - 1, x);
    } else if Calls(r1.1) == [] {
      StillChildren(w, m, n - 1);
      EventStays(w, r1.0, OwnedUpTo(m, n - 1), x);
      RestingSame(w, r1.0, OwnedUpTo(m, n), Owned(c));
      EventCalls(r1.0, c, x);
    }
  }

  lemma {:induction false} StillKeys<T, L>(w: World<T, L>, w': World<T, L>, moved: set<SimQueue<T>>)
    requires Still(w, w', moved)
    ensures w'.ms.Keys == w.ms.Keys && w'.qs.Keys == w.qs.Keys
  {
  }

  /** A pass over a module with an event calls somebody, unless its own queues take the event away. */
  lemma {:induction false} EventCalls<T, L>(w: World<T, L>, m: Module<T, L>, x: Module<T, L>)
    requires Tree(m) && Distinct(m) && Modules(m) <= w.ms.Keys
    requires x in Modules(m) && x in w.ms && HasEvent(w, x) && Resting(w, Owned(m))
    ensures Calls(PlainPass(w, m).1) != []
    decreases m.height, |m.submodules| + 1
  {
    hide *;
    InOwnModules(m);
    OwnOwned(m);
    NobodyThere(w, m, x);
    var w1, w2 := PlainStages(w, m);
    var n := |m.submodules|;
    var log1, log2 := Visit(w, m).1, PlainChildren(w1, m, n).1;
    LogSplit(log1 + log2, AdvanceOwned(w2, m.ownedQueues).1);
    LogSplit(log1, log2);
    VisitLog(w, m);
    if x != m && Calls(log1) == [] {
      StillVisit(w, m);
      NoneResting(w);
      EventStays(w, w1, {}, x);
      RestingSame(w, w1, Owned(m), OwnedUpTo(m, n));
      EventCallsChildren(w1, m, n, x);
    }
  }

  // ---------- One entry on its way ----------

  /** One entry waits, and the next `Work` makes it readable. */
  ghost predicate Waiting<T>(s: QState<T>, v: T) {
    && s.readQ == [] && s.writeQ == [v] && |s.delayQ| == 1 && s.delayQ[0] <= 1 && !s.stalled && s.epoch == 0
  }

  ghost predicate Arrived<T>(s: QState<T>, v: T) {
    s.readQ == [v] && s.writeQ == [] && s.epoch == 1
  }

  lemma {:induction false} Arrives<T>(s: QState<T>, v: T)
    requires Sound(s) && Waiting(s, v)
    ensures Arrived(Apply(s, Op.Work), v)
  {
    var counted := CountDown(s.delayQ);
    assert counted == [0] && counted[1..] == [];
    assert DueCount(counted) == 1;
    assert s.writeQ[..1] == [v] && s.writeQ[1..] == [];
  }

  lemma {:induction false} ClearedRests<T>(s: QState<T>)
    requires Sound(s) && Cleared(s)
    ensures Apply(s, Op.Work) == s
  {
    assert CountDown(s.delayQ) == [] && DueCount([]) == 0;
  }

  /** Queue q is there, and every other queue is as after a reset. */
  ghost predicate Lone<T, L>(w: World<T, L>, q: SimQueue<T>) {
    q in w.qs && forall p :: p in w.qs && p != q ==> Cleared(w.qs[p])
  }

  function Zeros(n: nat): (r: seq<u64>)
    ensures |r| == n && forall k :: 0 <= k < n ==> r[k] == 0
  {
    seq(n, (k: int) => 0)
  }

  /** These modules last saw epoch 0 everywhere, and at most x has a request. */
  ghost predicate Settled<T, L>(w: World<T, L>, ms: set<Module<T, L>>, x: Module<T, L>) {
    forall y :: y in ms ==>
      && y in w.ms && w.ms[y].observedInputs == Zeros(|y.inputs|) && w.ms[y].observedInners == Zeros(|y.inners|)
      && (w.ms[y].force ==> y == x)
  }

  lemma {:induction false} SettledLater<T, L>(w: World<T, L>, w': World<T, L>, moved: set<SimQueue<T>>,
                                              ms: set<Module<T, L>>, less: set<Module<T, L>>, x: Module<T, L>)
    requires Settled(w, ms, x) && Still(w, w', moved) && less <= ms
    ensures Settled(w', less, x) && (x in w.ms ==> w'.ms[x].force == w.ms[x].force)
  {
  }

  lemma {:induction false} QueueLater<T, L>(w: World<T, L>, w': World<T, L>, moved: set<SimQueue<T>>, q: SimQueue<T>,
                                            v: T)
    requires Still(w, w', moved) && Lone(w, q)
    ensures Lone(w', q) && q in w.qs && q in w'.qs
    ensures q !in moved ==> w'.qs[q] == w.qs[q]
    ensures q in moved && Waiting(w.qs[q], v) ==> Arrived(w'.qs[q], v)
  {
    forall p | p in w.qs && p != q
      ensures w'.qs[p] == w.qs[p]
    {
      ClearedRests(w.qs[p]);
    }
    if Waiting(w.qs[q], v) {
      Arrives(w.qs[q], v);
    }
  }

  /** Then only a request is an event before the entry arrives, and watching the queue one after. */
  lemma {:induction false} EventMeans<T, L>(w: World<T, L>, ms: set<Module<T, L>>, y: Module<T, L>, x: Module<T, L>,
                                            q: SimQueue<T>, v: T)
    requires Settled(w, ms, x) && y in ms && Lone(w, q)
    ensures y in w.ms && q in w.qs
    ensures Waiting(w.qs[q], v) ==> (HasEvent(w, y) <==> w.ms[y].force)
    ensures Arrived(w.qs[q], v) ==> (HasEvent(w, y) <==> w.ms[y].force || q in InSight(Watched, y))
  {
    EpochsMean(w, y.inputs, q, v);
    EpochsMean(w, y.inners, q, v);
  }

  lemma {:induction false} EpochsMean<T, L>(w: World<T, L>, queues: seq<SimQueue?<T>>, q: SimQueue<T>, v: T)
    requires Lone(w, q)
    ensures Waiting(w.qs[q], v) ==> Epochs(w, queues) == Zeros(|queues|)
    ensures Arrived(w.qs[q], v) ==> (Epochs(w, queues) == Zeros(|queues|) <==> q !in queues)
  {
    forall k | 0 <= k < |queues|
      ensures Epochs(w, queues)[k] == if queues[k] == q then w.qs[q].epoch else 0
    {
      assert queues[k] != q && queues[k] != null ==> Q(w, queues[k]).epoch == 0;
    }
    if q in queues {
      var k :| 0 <= k < |queues| && queues[k] == q;
      assert Zeros(|queues|)[k] == 0;
    }
  }

  // ---------- Whoever runs then has seen it early ----------

  /** Some `WorkSelf` finds the entry readable on one of its ports. */
  ghost predicate EarlySight<T, L>(log: seq<Event<T, L>>, q: SimQueue<T>) {
    exists i :: 0 <= i < |log| && EarlyEvent(log[i], q)
  }

  ghost predicate EarlyEvent<T, L>(e: Event<T, L>, q: SimQueue<T>) {
    e.Ran? && q in e.m.Ports() && q in e.before && e.before[q].readQ != []
  }

  lemma {:induction false} EarlyJoin<T, L>(a: seq<Event<T, L>>, b: seq<Event<T, L>>, q: SimQueue<T>)
    requires EarlySight(a, q) || EarlySight(b, q)
    ensures EarlySight(a + b, q)
  {
    if i :| 0 <= i < |a| && EarlyEvent(a[i], q) {
      assert (a + b)[i] == a[i];
    } else {
      var i :| 0 <= i < |b| && EarlyEvent(b[i], q);
      assert (a + b)[|a| + i] == b[i];
    }
  }

  lemma {:induction false} EarlyCalls<T, L>(log: seq<Event<T, L>>, q: SimQueue<T>)
    requires EarlySight(log, q)
    ensures Calls(log) != []
  {
    var i :| 0 <= i < |log| && EarlyEvent(log[i], q);
    CallsAreRuns(log, log[i].m);
  }

  lemma {:induction false} VisitEarly<T, L>(w: World<T, L>, m: Module<T, L>, q: SimQueue<T>)
    requires m in w.ms && HasEvent(w, m) && q in m.Ports() && q in w.qs && w.qs[q].readQ != []
    ensures EarlySight(Visit(w, m).1, q)
  {
    assert EarlyEvent(Visit(w, m).1[0], q);
  }

  /** The entry has not arrived and x is not among these modules, or it has and none of these queues is
      going to move it. */
  ghost predicate OnItsWay<T, L>(w: World<T, L>, ms: set<Module<T, L>>, owned: set<SimQueue<T>>,
                                 q: SimQueue<T>, x: Module<T, L>, v: T) {
    && Lone(w, q) && q in x.Ports() && Settled(w, ms, x)
    && ((Waiting(w.qs[q], v) && x !in ms) || (Arrived(w.qs[q], v) && q !in owned))
  }

  lemma {:induction false} OnItsWayPart<T, L>(w: World<T, L>, ms: set<Module<T, L>>, owned: set<SimQueue<T>>,
                                              less: set<Module<T, L>>, fewer: set<SimQueue<T>>,
                                              q: SimQueue<T>, x: Module<T, L>, v: T)
    requires OnItsWay(w, ms, owned, q, x, v) && less <= ms && fewer <= owned
    ensures OnItsWay(w, less, fewer, q, x, v)
  {
  }

  lemma {:induction false} OnItsWayLater<T, L>(w: World<T, L>, w': World<T, L>, moved: set<SimQueue<T>>,
                                               ms: set<Module<T, L>>, owned: set<SimQueue<T>>,
                                               less: set<Module<T, L>>, fewer: set<SimQueue<T>>,
                                               q: SimQueue<T>, x: Module<T, L>, v: T)
    requires OnItsWay(w, ms, owned, q, x, v) && Still(w, w', moved)
    requires less <= ms && moved + fewer <= owned && moved !! fewer
    ensures OnItsWay(w', less, fewer, q, x, v) && q in w.qs && q in w'.qs
    ensures Waiting(w.qs[q], v) && q !in moved ==> Waiting(w'.qs[q], v)
  {
    QueueLater(w, w', moved, q, v);
    SettledLater(w, w', moved, ms, less, x);
  }

  lemma {:induction false} OnItsWayFacts<T, L>(w: World<T, L>, ms: set<Module<T, L>>, owned: set<SimQueue<T>>,
                                               q: SimQueue<T>, x: Module<T, L>, v: T)
    requires OnItsWay(w, ms, owned, q, x, v)
    ensures Lone(w, q) && q in w.qs && (Waiting(w.qs[q], v) || Arrived(w.qs[q], v))
  {
    assert q in w.qs;
  }

  lemma {:induction false} OnlyEarlyChildren<T, L>(w: World<T, L>, m: Module<T, L>, n: nat,
                                                   q: SimQueue<T>, x: Module<T, L>, v: T)
    requires Tree(m) && Distinct(m) && n <= |m.submodules| && Modules(m) <= w.ms.Keys
    requires OnItsWay(w, ModulesUpTo(m, n), OwnedUpTo(m, n), q, x, v) && q in w.qs
    ensures Calls(PlainChildren(w, m, n).1) == [] || EarlySight(PlainChildren(w, m, n).1, q)
    ensures Waiting(w.qs[q], v) && q !in OwnedUpTo(m, n) ==> Calls(PlainChildren(w, m, n).1) == []
    decreases m.height, n
  {
    hide *;
    if n == 0 {
      NothingLogged(w, m);
      NoCalls<T, L>();
    } else {
      ChildOf(Bound, m, n);
      ChildPlaceOf(m, n, x);
      ModulesUpToNext(m, n);
      PlainChildrenNext(w, m, n - 1);
      var r1, c := PlainChildren(w, m, n - 1), m.submodules[n - 1];
      var log2 := PlainPass(r1.0, c).1;
      OnItsWayPart(w, ModulesUpTo(m, n), OwnedUpTo(m, n), ModulesUpTo(m, n - 1), OwnedUpTo(m, n - 1), q, x, v);
      OnlyEarlyChildren(w, m, n - 1, q, x, v);
      LogSplit(r1.1, log2);
      if Calls(r1.1) == [] {
        StillChildren(w, m, n - 1);
        OnItsWayLater(w, r1.0, OwnedUpTo(m, n - 1), ModulesUpTo(m, n), OwnedUpTo(m, n), Modules(c), Owned(c), q, x, v);
        OnItsWayFacts(r1.0, Modules(c), Owned(c), q, x, v);
        OnlyEarly(r1.0, c, q, x, v);
        if Calls(log2) != [] {
          EarlyJoin(r1.1, log2, q);
        }
      } else {
        EarlyJoin(r1.1, log2, q);
      }
    }
  }

  lemma {:induction false} NoCalls<T, L>()
    ensures Calls<T, L>([]) == []
  {
  }

  lemma {:induction false} ModulesUpToNext<T, L>(m: Module<T, L>, n: nat)
    requires Tree(m) && 0 < n <= |m.submodules|
    ensures ModulesUpTo(m, n) == ModulesUpTo(m, n - 1) + Modules(m.submodules[n - 1])
  {
  }

  lemma {:induction false} EarlyVisit<T, L>(w: World<T, L>, m: Module<T, L>, q: SimQueue<T>, x: Module<T, L>, v: T)
    requires Tree(m) && OnItsWay(w, Modules(m), Owned(m), q, x, v) && m in w.ms && q in w.qs && HasEvent(w, m)
    ensures EarlySight(Visit(w, m).1, q) && Arrived(w.qs[q], v)
  {
    InOwnModules(m);
    EventMeans(w, Modules(m), m, x, q, v);
    assert q in InSight(Watched, m) ==> q in m.Ports();
    VisitEarly(w, m, q);
  }

  /** While the entry is on its way a pass calls nobody, or somebody who sees it early; and nobody at all
      unless the queue is advanced in it. */
  lemma {:induction false} OnlyEarly<T, L>(w: World<T, L>, m: Module<T, L>, q: SimQueue<T>, x: Module<T, L>, v: T)
    requires Tree(m) && Distinct(m) && Modules(m) <= w.ms.Keys
    requires OnItsWay(w, Modules(m), Owned(m), q, x, v) && q in w.qs
    ensures Calls(PlainPass(w, m).1) == [] || EarlySight(PlainPass(w, m).1, q)
    ensures Waiting(w.qs[q], v) && q !in Owned(m) ==> Calls(PlainPass(w, m).1) == []
    decreases m.height, |m.submodules| + 1
  {
    hide *;
    InOwnModules(m);
    OwnOwned(m);
    ModulesParts(m);
    var w1, w2 := PlainStages(w, m);
    var n := |m.submodules|;
    var log1, log2, log3 := Visit(w, m).1, PlainChildren(w1, m, n).1, AdvanceOwned(w2, m.ownedQueues).1;
    LogSplit(log1 + log2, log3);
    LogSplit(log1, log2);
    AdvanceOwnedLog(w2, m.ownedQueues);
    VisitLog(w, m);
    if HasEvent(w, m) {
      EarlyVisit(w, m, q, x, v);
      EarlyJoin(log1, log2, q);
      EarlyJoin(log1 + log2, log3, q);
      WaitingIsNotArrived(w.qs[q], v);
    } else {
      StillVisit(w, m);
      OnItsWayLater(w, w1, {}, Modules(m), Owned(m), ModulesUpTo(m, n), OwnedUpTo(m, n), q, x, v);
      OnItsWayFacts(w1, ModulesUpTo(m, n), OwnedUpTo(m, n), q, x, v);
      OnlyEarlyChildren(w1, m, n, q, x, v);
      if Calls(log2) != [] {
        EarlyJoin(log1, log2, q);
        EarlyJoin(log1 + log2, log3, q);
      }
    }
  }

  lemma {:induction false} WaitingIsNotArrived<T>(s: QState<T>, v: T)
    ensures !(Waiting(s, v) && Arrived(s, v))
  {
  }

  // ---------- A late reader ----------

  /** Below m, x has a queue in sight that an earlier sibling's subtree owns. */
  ghost predicate Late<T, L>(s: Sight, m: Module<T, L>, q: SimQueue<T>, x: Module<T, L>)
    requires Tree(m)
    decreases m.height
  {
    exists k {:trigger m.submodules[k]} :: 0 <= k < |m.submodules| &&
      ((q in OwnedUpTo(m, k) && x in Modules(m.submodules[k]) && q in InSight(s, x)) || Late(s, m.submodules[k], q, x))
  }

  lemma {:induction false} FindSeerUpTo<T, L>(s: Sight, m: Module<T, L>, n: nat, q: SimQueue<T>)
    returns (x: Module<T, L>)
    requires Tree(m) && n <= |m.submodules| && q in SeenUpTo(s, m, n)
    ensures x in ModulesUpTo(m, n) && q in InSight(s, x)
    decreases m.height, n
  {
    if q in SeenUpTo(s, m, n - 1) {
      x := FindSeerUpTo(s, m, n - 1, q);
    } else {
      x := FindSeer(s, m.submodules[n - 1], q);
    }
  }

  lemma {:induction false} FindSeer<T, L>(s: Sight, m: Module<T, L>, q: SimQueue<T>) returns (x: Module<T, L>)
    requires Tree(m) && q in Seen(s, m)
    ensures x in Modules(m) && q in InSight(s, x)
    decreases m.height, |m.submodules| + 1
  {
    if q in SightSet(s, m) {
      x := m;
    } else {
      x := FindSeerUpTo(s, m, |m.submodules|, q);
    }
  }

  lemma {:induction false} FindLate<T, L>(s: Sight, m: Module<T, L>) returns (q: SimQueue<T>, x: Module<T, L>)
    requires Tree(m) && !Ordered(s, m)
    ensures Late(s, m, q, x)
    decreases m.height
  {
    var k :| 0 <= k < |m.submodules| && !(Ordered(s, m.submodules[k]) && Seen(s, m.submodules[k]) !! OwnedUpTo(m, k));
    if !Ordered(s, m.submodules[k]) {
      q, x := FindLate(s, m.submodules[k]);
    } else {
      q :| q in Seen(s, m.submodules[k]) && q in OwnedUpTo(m, k);
      x := FindSeer(s, m.submodules[k], q);
    }
  }

  lemma {:induction false} LateChild<T, L>(s: Sight, m: Module<T, L>, q: SimQueue<T>, x: Module<T, L>) returns (k: nat)
    requires Tree(m) && Late(s, m, q, x)
    ensures k < |m.submodules| && Tree(m.submodules[k])
    ensures (q in OwnedUpTo(m, k) && x in Modules(m.submodules[k]) && q in InSight(s, x))
            || Late(s, m.submodules[k], q, x)
  {
    k :| 0 <= k < |m.submodules| &&
      ((q in OwnedUpTo(m, k) && x in Modules(m.submodules[k]) && q in InSight(s, x)) || Late(s, m.submodules[k], q, x));
  }

  lemma {:induction false} LateFacts<T, L>(s: Sight, m: Module<T, L>, q: SimQueue<T>, x: Module<T, L>)
    requires Tree(m) && Distinct(m) && Late(s, m, q, x)
    ensures q in Owned(m) && x in Modules(m) && x != m && q in InSight(s, x) && q in x.Ports()
    decreases m.height
  {
    hide *;
    var k := LateChild(s, m, q, x);
    ChildOf(s, m, k + 1);
    ChildPlaceOf(m, k + 1, x);
    OwnedGrow(m, k, k + 1);
    OwnedGrow(m, k + 1, |m.submodules|);
    OwnOwned(m);
    SightIsBound(s, x, q);
    if Late(s, m.submodules[k], q, x) {
      LateFacts(s, m.submodules[k], q, x);
    }
  }

  lemma {:induction false} SightIsBound<T, L>(s: Sight, x: Module<T, L>, q: SimQueue<T>)
    ensures q in InSight(s, x) ==> q in x.Ports()
  {
  }

  lemma {:induction false} EarlyMore<T, L>(w: World<T, L>, m: Module<T, L>, k: nat, n: nat, q: SimQueue<T>)
    requires Tree(m) && k <= n <= |m.submodules| && Modules(m) <= w.ms.Keys && EarlySight(PlainChildren(w, m, k).1, q)
    ensures EarlySight(PlainChildren(w, m, n).1, q)
  {
    hide *;
    if k < n {
      EarlyMore(w, m, k, n - 1, q);
      PlainChildrenNext(w, m, n - 1);
      EarlyJoin(PlainChildren(w, m, n - 1).1, PlainPass(PlainChildren(w, m, n - 1).0, m.submodules[n - 1]).1, q);
    }
  }

  /** The entry arrives before the late reader's turn: somebody sees it early. */
  lemma {:induction false} ArrivedEarly<T, L>(w: World<T, L>, m: Module<T, L>, s: Sight, q: SimQueue<T>,
                                              x: Module<T, L>, v: T)
    requires Tree(m) && Distinct(m) && Modules(m) <= w.ms.Keys && x in Modules(m) && x in w.ms && q !in Owned(m)
    requires Lone(w, q) && q in w.qs && Arrived(w.qs[q], v) && Settled(w, Modules(m), x)
    requires q in InSight(s, x) && (s == Watched || w.ms[x].force)
    ensures EarlySight(PlainPass(w, m).1, q)
  {
    EventMeans(w, Modules(m), x, x, q, v);
    SightIsBound(s, x, q);
    assert OnItsWay(w, Modules(m), Owned(m), q, x, v);
    assert Resting(w, Owned(m));
    EventCalls(w, m, x);
    OnlyEarly(w, m, q, x, v);
  }

  lemma {:induction false} LateIsEarly<T, L>(w: World<T, L>, m: Module<T, L>, s: Sight, q: SimQueue<T>,
                                             x: Module<T, L>, v: T)
    requires Tree(m) && Distinct(m) && Modules(m) <= w.ms.Keys && Late(s, m, q, x) && x in w.ms
    requires Lone(w, q) && q in w.qs && Waiting(w.qs[q], v) && Settled(w, Modules(m), x)
    requires s == Watched || w.ms[x].force
    ensures EarlySight(PlainPass(w, m).1, q)
    decreases m.height
  {
    hide *;
    InOwnModules(m);
    ModulesParts(m);
    LateFacts(s, m, q, x);
    EventMeans(w, Modules(m), m, x, q, v);
    SettledForce(w, Modules(m), m, x);
    var w1, w2 := PlainStages(w, m);
    VisitLog(w, m);
    StillVisit(w, m);
    var k := LateChild(s, m, q, x);
    LateAmongChildren(w1, m, k, s, q, x, v) by {
      QueueLater(w, w1, {}, q, v);
      SettledLater(w, w1, {}, Modules(m), Modules(m), x);
    }
    var n := |m.submodules|;
    EarlyMore(w1, m, k + 1, n, q);
    var log1, log2, log3 := Visit(w, m).1, PlainChildren(w1, m, n).1, AdvanceOwned(w2, m.ownedQueues).1;
    EarlyJoin(log1, log2, q);
    EarlyJoin(log1 + log2, log3, q);
  }

  lemma {:induction false} SettledForce<T, L>(w: World<T, L>, ms: set<Module<T, L>>, y: Module<T, L>, x: Module<T, L>)
    requires Settled(w, ms, x) && y in ms
    ensures y in w.ms && (w.ms[y].force ==> y == x)
  {
  }

  lemma {:induction false} LateAmongChildren<T, L>(w: World<T, L>, m: Module<T, L>, k: nat, s: Sight,
                                                   q: SimQueue<T>, x: Module<T, L>, v: T)
    requires Tree(m) && Distinct(m) && Modules(m) <= w.ms.Keys && k < |m.submodules| && Tree(m.submodules[k])
    requires (q in OwnedUpTo(m, k) && x in Modules(m.submodules[k]) && q in InSight(s, x))
             || Late(s, m.submodules[k], q, x)
    requires Lone(w, q) && q in w.qs && Waiting(w.qs[q], v) && Settled(w, Modules(m), x) && x in w.ms
    requires s == Watched || w.ms[x].force
    ensures EarlySight(PlainChildren(w, m, k + 1).1, q)
    decreases m.height, 0
  {
    hide *;
    var c, r1 := m.submodules[k], PlainChildren(w, m, k);
    ChildOf(s, m, k + 1);
    ChildPlaceOf(m, k + 1, x);
    ChildPlaceBefore(m, k);
    PlainChildrenNext(w, m, k);
    if Late(s, c, q, x) {
      LateFacts(s, c, q, x);
    }
    SightIsBound(s, x, q);
    StartsOnItsWay(w, Modules(m), ModulesUpTo(m, k), OwnedUpTo(m, k), q, x, v);
    OnlyEarlyChildren(w, m, k, q, x, v);
    if Calls(r1.1) == [] {
      StillChildren(w, m, k);
      QueueLater(w, r1.0, OwnedUpTo(m, k), q, v);
      SettledLater(w, r1.0, OwnedUpTo(m, k), Modules(m), Modules(c), x);
      StillKeys(w, r1.0, OwnedUpTo(m, k));
      if q in OwnedUpTo(m, k) {
        ArrivedEarly(r1.0, c, s, q, x, v);
      } else {
        LateIsEarly(r1.0, c, s, q, x, v);
      }
    }
    EarlyJoin(r1.1, PlainPass(r1.0, c).1, q);
  }

  lemma {:induction false} ChildPlaceBefore<T, L>(m: Module<T, L>, k: nat)
    requires Tree(m) && k < |m.submodules|
    ensures ModulesUpTo(m, k) <= Modules(m)
  {
    ModulesUpToGrow(m, k, |m.submodules|);
  }

  lemma {:induction false} StartsOnItsWay<T, L>(w: World<T, L>, ms: set<Module<T, L>>, less: set<Module<T, L>>,
                                                owned: set<SimQueue<T>>, q: SimQueue<T>, x: Module<T, L>, v: T)
    requires Lone(w, q) && q in w.qs && Waiting(w.qs[q], v) && Settled(w, ms, x) && less <= ms
    requires x !in less && q in x.Ports()
    ensures OnItsWay(w, less, owned, q, x, v)
  {
  }

  // ---------- The same over several roots ----------

  lemma {:induction false} StillAll<T, L>(w: World<T, L>, roots: seq<Module<T, L>>, n: nat)
    requires Registered(w, roots) && Apart(roots) && n <= |roots| && Calls(PlainAll(w, roots, n).1) == []
    ensures Still(w, PlainAll(w, roots, n).0, OwnedOf(roots, n))
  {
    hide *;
    NoOpsYet(w, roots, null);
    if n == 0 {
      NothingYet(w, roots);
      NoRoots(roots);
      StillHere(w);
    } else {
      RegisteredAt(w, roots, n - 1);
      ApartAt(roots, n - 1);
      PlainAllNext(w, roots, n - 1);
      var r1, c := PlainAll(w, roots, n - 1), roots[n - 1];
      LogSplit(r1.1, PlainPass(r1.0, c).1);
      StillAll(w, roots, n - 1);
      StillPass(r1.0, c);
      StillThen(w, r1.0, PlainPass(r1.0, c).0, OwnedOf(roots, n - 1), Owned(c));
    }
  }

  lemma {:induction false} OnlyEarlyAll<T, L>(w: World<T, L>, roots: seq<Module<T, L>>, n: nat,
                                              q: SimQueue<T>, x: Module<T, L>, v: T)
    requires Registered(w, roots) && Apart(roots) && n <= |roots| && q in w.qs
    requires OnItsWay(w, ModulesOf(roots, n), OwnedOf(roots, n), q, x, v)
    ensures Calls(PlainAll(w, roots, n).1) == [] || EarlySight(PlainAll(w, roots, n).1, q)
    ensures Waiting(w.qs[q], v) && q !in OwnedOf(roots, n) ==> Calls(PlainAll(w, roots, n).1) == []
  {
    hide *;
    NoOpsYet(w, roots, null);
    if n == 0 {
      NothingYet(w, roots);
      NoCalls<T, L>();
    } else {
      RegisteredAt(w, roots, n - 1);
      ApartAt(roots, n - 1);
      PlainAllNext(w, roots, n - 1);
      var r1, c := PlainAll(w, roots, n - 1), roots[n - 1];
      var log2, ms, owned := PlainPass(r1.0, c).1, ModulesOf(roots, n), OwnedOf(roots, n);
      OnItsWayPart(w, ms, owned, ModulesOf(roots, n - 1), OwnedOf(roots, n - 1), q, x, v);
      OnlyEarlyAll(w, roots, n - 1, q, x, v);
      LogSplit(r1.1, log2);
      if Calls(r1.1) == [] {
        StillAll(w, roots, n - 1);
        OnItsWayLater(w, r1.0, OwnedOf(roots, n - 1), ms, owned, Modules(c), Owned(c), q, x, v);
        OnItsWayFacts(r1.0, Modules(c), Owned(c), q, x, v);
        OnlyEarly(r1.0, c, q, x, v);
        if Calls(log2) != [] {
          EarlyJoin(r1.1, log2, q);
        }
      } else {
        EarlyJoin(r1.1, log2, q);
      }
    }
  }

  lemma {:induction false} EarlyAllMore<T, L>(w: World<T, L>, roots: seq<Module<T, L>>, k: nat, n: nat, q: SimQueue<T>)
    requires Registered(w, roots) && k <= n <= |roots| && EarlySight(PlainAll(w, roots, k).1, q)
    ensures EarlySight(PlainAll(w, roots, n).1, q)
  {
    hide *;
    if k < n {
      EarlyAllMore(w, roots, k, n - 1, q);
      PlainAllNext(w, roots, n - 1);
      EarlyJoin(PlainAll(w, roots, n - 1).1, PlainPass(PlainAll(w, roots, n - 1).0, roots[n - 1]).1, q);
    }
  }

  ghost predicate Roots<T, L>(roots: seq<Module<T, L>>) {
    Apart(roots) && forall i {:trigger roots[i]} :: 0 <= i < |roots| ==> Distinct(roots[i])
  }

  /** As after a reset: no module has an event, and every queue is empty at epoch 0. */
  ghost predicate Rested<T, L>(w: World<T, L>, roots: seq<Module<T, L>>)
    requires Trees(roots)
  {
    && (forall q :: q in w.qs ==> Cleared(w.qs[q]))
    && forall x :: x in ModulesOf(roots, |roots|) ==> x in w.ms && !HasEvent(w, x)
  }

  /** The roots' modules and all their queues are there: a state that the objects can be in. */
  ghost predicate Complete<T, L>(w: World<T, L>, roots: seq<Module<T, L>>) {
    Registered(w, roots) && Closed(w.ms.Keys, w.qs.Keys)
  }

  /** What a step asks of the objects it works on is that their state is complete. */
  lemma {:induction false} StepIsComplete<T, L>(ms: set<Module<T, L>>, qs: set<SimQueue<T>>, roots: seq<Module<T, L>>)
    requires AllSound(qs)
    ensures Complete(Snap(ms, qs), roots) <==> Closed(ms, qs) && Registered(Snap(ms, qs), roots)
  {
    assert Snap(ms, qs).ms.Keys == ms && Snap(ms, qs).qs.Keys == qs;
  }

  /** The same state with one entry on its way in q, under the capacity and latency q has. */
  ghost function Primed<T, L>(w: World<T, L>, q: SimQueue<T>, v: T): World<T, L>
    requires q in w.qs && Cleared(w.qs[q])
  {
    var s := w.qs[q];
    w.(qs := w.qs[q := s.(writeQ := [v], delayQ := [if s.latency > 1 then 1 else s.latency])])
  }

  /** The same state with a request of module x. */
  ghost function Requested<T, L>(w: World<T, L>, x: Module<T, L>): World<T, L>
    requires x in w.ms
  {
    WithState(w, x, w.ms[x].(force := true))
  }

  lemma {:induction false} RestedEpochs<T, L>(w: World<T, L>, queues: seq<SimQueue?<T>>)
    requires forall q :: q in w.qs ==> Cleared(w.qs[q])
    ensures Epochs(w, queues) == Zeros(|queues|)
  {
    forall k | 0 <= k < |queues|
      ensures Epochs(w, queues)[k] == 0
    {
      assert queues[k] != null ==> Q(w, queues[k]).epoch == 0;
    }
  }

  lemma {:induction false} PrimedFacts<T, L>(w: World<T, L>, roots: seq<Module<T, L>>, q: SimQueue<T>, v: T,
                                             x: Module<T, L>)
    requires Complete(w, roots) && Trees(roots) && Rested(w, roots) && q in w.qs && Cleared(w.qs[q])
    requires x in ModulesOf(roots, |roots|)
    ensures
      var p := Primed(w, q, v);
      && Complete(p, roots) && Registered(p, roots)
      && Lone(p, q) && q in p.qs && Waiting(p.qs[q], v) && p.qs[q].readQ == []
      && Settled(p, ModulesOf(roots, |roots|), x) && x in p.ms && !p.ms[x].force
  {
    hide Distinct, ModulesOf, Modules;
    forall y | y in ModulesOf(roots, |roots|)
      ensures w.ms[y].observedInputs == Zeros(|y.inputs|) && w.ms[y].observedInners == Zeros(|y.inners|)
      ensures !w.ms[y].force
    {
      RestedEpochs(w, y.inputs);
      RestedEpochs(w, y.inners);
    }
    assert Primed(w, q, v).qs.Keys == w.qs.Keys;
  }

  lemma {:induction false} RequestedFacts<T, L>(w: World<T, L>, roots: seq<Module<T, L>>, q: SimQueue<T>,
                                                x: Module<T, L>)
    requires Complete(w, roots) && Trees(roots) && x in w.ms && Settled(w, ModulesOf(roots, |roots|), x)
    ensures
      var p := Requested(w, x);
      && Complete(p, roots) && Registered(p, roots) && p.qs == w.qs && (Lone(w, q) ==> Lone(p, q))
      && Settled(p, ModulesOf(roots, |roots|), x) && x in p.ms && p.ms[x].force
  {
    hide Distinct, ModulesOf, Modules;
    assert Requested(w, x).ms.Keys == w.ms.Keys;
  }

  lemma {:induction false} CompleteFacts<T, L>(w: World<T, L>, roots: seq<Module<T, L>>)
    requires Complete(w, roots)
    ensures Registered(w, roots) && Trees(roots) && Closed(w.ms.Keys, w.qs.Keys)
  {
  }

  lemma {:induction false} OwnedUpToThere<T, L>(m: Module<T, L>, n: nat, ms: set<Module<T, L>>, qs: set<SimQueue<T>>)
    requires Tree(m) && n <= |m.submodules| && Modules(m) <= ms && Closed(ms, qs)
    ensures OwnedUpTo(m, n) <= qs
    decreases m.height, n
  {
    hide Owned, Closed;
    if n > 0 {
      InModules(m, n);
      OwnedUpToThere(m, n - 1, ms, qs);
      OwnedThere(m.submodules[n - 1], ms, qs);
    }
  }

  /** Every owned queue of modules that are there is there. */
  lemma {:induction false} OwnedThere<T, L>(m: Module<T, L>, ms: set<Module<T, L>>, qs: set<SimQueue<T>>)
    requires Tree(m) && Modules(m) <= ms && Closed(ms, qs)
    ensures Owned(m) <= qs
    decreases m.height, |m.submodules| + 1
  {
    InOwnModules(m);
    OwnedUpToThere(m, |m.submodules|, ms, qs);
  }

  lemma {:induction false} QueueThere<T, L>(w: World<T, L>, roots: seq<Module<T, L>>, n: nat, q: SimQueue<T>)
    requires Complete(w, roots) && Trees(roots) && Rested(w, roots) && n <= |roots| && q in OwnedOf(roots, n)
    ensures q in w.qs && Cleared(w.qs[q])
  {
    hide Registered, Closed, Owned, Modules, ModulesOf;
    CompleteFacts(w, roots);
    RegisteredAt(w, roots, n - 1);
    if q in OwnedOf(roots, n - 1) {
      QueueThere(w, roots, n - 1, q);
    } else {
      OwnedThere(roots[n - 1], w.ms.Keys, w.qs.Keys);
    }
  }

  // ---------- A state to begin with ----------

  ghost function QueuesOf<T, L>(ms: set<Module<T, L>>): set<SimQueue<T>> {
    (set m, q: SimQueue<T> | m in ms && q in m.Ports() :: q) + (set m, q | m in ms && q in m.ownedQueues :: q)
  }

  /** All the roots' modules at rest and all their queues empty. */
  ghost function Blank<T, L>(roots: seq<Module<T, L>>, l: L): World<T, L>
    requires Trees(roots)
  {
    var ms := ModulesOf(roots, |roots|);
    World(map m | m in ms :: MState(Zeros(|m.inputs|), Zeros(|m.inners|), false, false, l),
          map q | q in QueuesOf(ms) :: Fresh(1, 0), map m | m in ms :: [])
  }

  lemma {:induction false} BlankFacts<T, L>(roots: seq<Module<T, L>>, l: L)
    requires Roots(roots) && Trees(roots)
    ensures Complete(Blank(roots, l), roots) && Rested(Blank(roots, l), roots)
  {
    hide Distinct, Modules, ModulesOf;
    var w, ms := Blank(roots, l), ModulesOf(roots, |roots|);
    forall i | 0 <= i < |roots|
      ensures Modules(roots[i]) <= ms
    {
      RootModules(roots, i, |roots|);
    }
    forall x | x in ms
      ensures !HasEvent(w, x)
    {
      RestedEpochs(w, x.inputs);
      RestedEpochs(w, x.inners);
    }
    assert Closed(ms, QueuesOf(ms));
  }

  // ---------- The cycle boundary ----------

  /** What a call is handed for one port holds only entries that were readable there at the start. */
  ghost predicate OldView<T>(view: W.Option<QState<T>>, port: SimQueue?<T>, start: Queues<T>) {
    port != null && port in start ==> view.Some? && Sub(view.value.readQ, start[port].readQ)
  }

  ghost predicate HandedOnlyOld<T, L>(e: Event<T, L>, start: Queues<T>) {
    e.Ran? ==>
      && |e.views| == |e.m.Ports()|
      && forall k :: 0 <= k < |e.views| ==> OldView(e.views[k], e.m.Ports()[k], start)
  }

  ghost predicate KeepsBoundary<T, L>(log: seq<Event<T, L>>, start: Queues<T>) {
    forall i :: 0 <= i < |log| ==> HandedOnlyOld(log[i], start)
  }

  ghost function SeenOf<T, L>(roots: seq<Module<T, L>>, n: nat): set<SimQueue<T>>
    requires Trees(roots) && n <= |roots|
  {
    if n == 0 then {} else SeenOf(roots, n - 1) + Seen(Bound, roots[n - 1])
  }

  lemma {:induction false} SeenOfNext<T, L>(roots: seq<Module<T, L>>, n: nat)
    requires Trees(roots) && 0 < n <= |roots|
    ensures Tree(roots[n - 1]) && SeenOf(roots, n) == SeenOf(roots, n - 1) + Seen(Bound, roots[n - 1])
  {
  }

  lemma {:induction false} NothingSeen<T, L>(w: World<T, L>, seen: set<SimQueue<T>>)
    ensures LogSawOnlyOld<T, L>([], w.qs, seen) && SameKeys<T, L>([], w.qs) && Quietly(w.qs, w.qs, {})
  {
    forall q | q in w.qs
      ensures Fades(w.qs, w.qs, q)
    {
      SubSelf(w.qs[q].readQ);
    }
  }

  lemma {:induction false} AllBoundary<T, L>(w: World<T, L>, roots: seq<Module<T, L>>, n: nat)
    requires Registered(w, roots) && Apart(roots) && AllOrdered(roots) && n <= |roots|
    ensures
      var r := PlainAll(w, roots, n);
      && LogSawOnlyOld(r.1, w.qs, SeenOf(roots, n)) && SameKeys(r.1, w.qs)
      && Quietly(r.0.qs, w.qs, OwnedOf(roots, n))
  {
    hide *;
    NoOpsYet(w, roots, null);
    if n == 0 {
      NothingYet(w, roots);
      NoRoots(roots);
      NothingSeen(w, SeenOf(roots, 0));
    } else {
      RegisteredAt(w, roots, n - 1);
      ApartAt(roots, n - 1);
      AllOrderedAt(roots, n - 1);
      SeenOfNext(roots, n);
      PlainAllNext(w, roots, n - 1);
      AllBoundary(w, roots, n - 1);
      var (w1, log1) := PlainAll(w, roots, n - 1);
      var c, seen := roots[n - 1], SeenOf(roots, n);
      Boundary(w1, c);
      var (w2, log2) := PlainPass(w1, c);
      QuietlyAt(w1.qs, w.qs, OwnedOf(roots, n - 1), Seen(Bound, c));
      LogFromLater(log2, w1.qs, w.qs, Seen(Bound, c));
      LogWiden(log2, w.qs, Seen(Bound, c), seen);
      LogWiden(log1, w.qs, SeenOf(roots, n - 1), seen);
      LogJoin(log1, log2, w.qs, seen);
      PassKeys(w1, c);
      QuietlyThen(w.qs, w1.qs, w2.qs, OwnedOf(roots, n - 1), Owned(c));
    }
  }

  lemma {:induction false} PassKeys<T, L>(w: World<T, L>, m: Module<T, L>)
    requires Tree(m) && Modules(m) <= w.ms.Keys
    ensures PlainPass(w, m).0.qs.Keys == w.qs.Keys
  {
  }

  lemma {:induction false} OldEvent<T, L>(e: Event<T, L>, start: Queues<T>, seen: set<SimQueue<T>>)
    requires SawOnlyOld(e, start, seen) && ProperCall(e, true) && (e.Ran? ==> e.before.Keys == start.Keys)
    ensures HandedOnlyOld(e, start)
  {
    hide Run, OpsOn, Sub;
    if e.Ran? {
      forall k | 0 <= k < |e.views|
        ensures OldView(e.views[k], e.m.Ports()[k], start)
      {
        assert e.m.Ports()[k] in e.m.Ports();
      }
    }
  }

  lemma {:induction false} OldIsKept<T, L>(w: World<T, L>, log: seq<Event<T, L>>, w': World<T, L>,
                                           seen: set<SimQueue<T>>)
    requires LogSawOnlyOld(log, w.qs, seen) && Threaded(w, log, true, w')
    ensures KeepsBoundary(log, w.qs)
  {
    hide LocalAfter, SawOnlyOld, ProperCall, HandedOnlyOld;
    forall i | 0 <= i < |log|
      ensures HandedOnlyOld(log[i], w.qs)
    {
      OldEvent(log[i], w.qs, seen);
    }
  }

  lemma {:induction false} EarlyEventIsNotOld<T, L>(e: Event<T, L>, start: Queues<T>, q: SimQueue<T>)
    requires EarlyEvent(e, q) && ProperCall(e, true) && q in start && start[q].readQ == []
    ensures !HandedOnlyOld(e, start)
  {
    hide Run, OpsOn;
    var k :| 0 <= k < |e.m.Ports()| && e.m.Ports()[k] == q;
    assert e.views[k].value == e.before[q];
    assert !OldView(e.views[k], e.m.Ports()[k], start);
  }

  lemma {:induction false} EarlyIsNotKept<T, L>(w: World<T, L>, log: seq<Event<T, L>>, w': World<T, L>, q: SimQueue<T>)
    requires EarlySight(log, q) && q in w.qs && w.qs[q].readQ == [] && Threaded(w, log, true, w')
    ensures !KeepsBoundary(log, w.qs)
  {
    hide LocalAfter, ProperCall, HandedOnlyOld, EarlyEvent;
    var i :| 0 <= i < |log| && EarlyEvent(log[i], q);
    EarlyEventIsNotOld(log[i], w.qs, q);
  }

  /** The cycle boundary. When the roots are in order, whatever the latencies and whatever is skipped, every
      `WorkSelf` of a cycle is handed on each of its ports only entries that were readable there when the cycle
      began: nothing written during a cycle can be seen before the next one. */
  lemma {:induction false} NothingSeenEarly<T, L>(w: World<T, L>, roots: seq<Module<T, L>>)
    requires Registered(w, roots) && Apart(roots) && AllOrdered(roots)
    ensures KeepsBoundary(Worked(w, roots).1, w.qs)
  {
    hide *;
    NoOpsYet(w, roots, null);
    WorkWent(w, roots, null);
    AllBoundary(w, roots, |roots|);
    WorkCallsProper(w, roots);
    OldIsKept(w, Worked(w, roots).1, Worked(w, roots).0, SeenOf(roots, |roots|));
  }

  lemma {:induction false} FindLateRoot<T, L>(roots: seq<Module<T, L>>)
    returns (i: nat, q: SimQueue<T>, x: Module<T, L>)
    requires Trees(roots) && !AllOrdered(roots)
    ensures i < |roots| && Tree(roots[i])
    ensures (q in OwnedOf(roots, i) && x in Modules(roots[i]) && q in InSight(Bound, x)) || Late(Bound, roots[i], q, x)
  {
    hide Ordered, Seen, Late, OwnedOf, Modules;
    i :| 0 <= i < |roots| && !(Ordered(Bound, roots[i]) && Seen(Bound, roots[i]) !! OwnedOf(roots, i));
    if !Ordered(Bound, roots[i]) {
      q, x := FindLate(Bound, roots[i]);
    } else {
      q :| q in Seen(Bound, roots[i]) && q in OwnedOf(roots, i);
      x := FindSeer(Bound, roots[i], q);
    }
  }

  lemma {:induction false} LateRootIsEarly<T, L>(w: World<T, L>, roots: seq<Module<T, L>>, i: nat,
                                                 q: SimQueue<T>, x: Module<T, L>, v: T)
    requires Registered(w, roots) && Apart(roots) && i < |roots| && Tree(roots[i])
    requires (q in OwnedOf(roots, i) && x in Modules(roots[i]) && q in InSight(Bound, x)) || Late(Bound, roots[i], q, x)
    requires Lone(w, q) && q in w.qs && Waiting(w.qs[q], v) && Settled(w, ModulesOf(roots, |roots|), x)
    requires x in w.ms && w.ms[x].force
    ensures EarlySight(PlainAll(w, roots, i + 1).1, q)
  {
    hide *;
    NoOpsYet(w, roots, null);
    var c, r1, ms := roots[i], PlainAll(w, roots, i), ModulesOf(roots, |roots|);
    RegisteredAt(w, roots, i);
    ApartAt(roots, i);
    RootModules(roots, i, |roots|);
    ModulesOfGrow(roots, i, |roots|);
    PlainAllNext(w, roots, i);
    if Late(Bound, c, q, x) {
      LateFacts(Bound, c, q, x);
    }
    SightIsBound(Bound, x, q);
    StartsOnItsWay(w, ms, ModulesOf(roots, i), OwnedOf(roots, i), q, x, v);
    OnlyEarlyAll(w, roots, i, q, x, v);
    if Calls(r1.1) == [] {
      StillAll(w, roots, i);
      QueueLater(w, r1.0, OwnedOf(roots, i), q, v);
      SettledLater(w, r1.0, OwnedOf(roots, i), ms, Modules(c), x);
      if q in OwnedOf(roots, i) {
        ArrivedEarly(r1.0, c, Bound, q, x, v);
      } else {
        LateIsEarly(r1.0, c, Bound, q, x, v);
      }
    }
    EarlyJoin(r1.1, PlainPass(r1.0, c).1, q);
  }

  lemma {:induction false} ModulesOfGrow<T, L>(roots: seq<Module<T, L>>, n: nat, k: nat)
    requires Trees(roots) && n <= k <= |roots|
    ensures ModulesOf(roots, n) <= ModulesOf(roots, k)
  {
    if n < k {
      ModulesOfGrow(roots, n, k - 1);
    }
  }

  /** When they are not, every state after a reset is one entry on its way and one request from a state in
      which some `WorkSelf` breaks it. */
  lemma {:induction false} SeenEarly<T, L>(roots: seq<Module<T, L>>, rest: World<T, L>, v: T)
    returns (w: World<T, L>, q: SimQueue<T>, x: Module<T, L>)
    requires Roots(roots) && Trees(roots) && !AllOrdered(roots) && Complete(rest, roots) && Rested(rest, roots)
    ensures q in rest.qs && Cleared(rest.qs[q]) && x in Primed(rest, q, v).ms && w == Requested(Primed(rest, q, v), x)
    ensures Complete(w, roots) && Registered(w, roots) && !KeepsBoundary(Worked(w, roots).1, w.qs)
  {
    hide *;
    var i;
    i, q, x := FindLateRoot(roots);
    CompleteFacts(rest, roots);
    RegisteredAt(rest, roots, i);
    RootsApart(roots);
    ModulesOfNext(roots, i + 1);
    OwnedOfGrow(roots, i, |roots|);
    OwnedOfGrow(roots, i + 1, |roots|);
    RootModules(roots, i, |roots|);
    if Late(Bound, roots[i], q, x) {
      LateFacts(Bound, roots[i], q, x);
    }
    QueueThere(rest, roots, |roots|, q);
    var p := Primed(rest, q, v);
    PrimedFacts(rest, roots, q, v, x);
    w := Requested(p, x);
    RequestedFacts(p, roots, q, x);
    LateRootIsEarly(w, roots, i, q, x, v);
    EarlyAllMore(w, roots, i + 1, |roots|, q);
    WorkWent(w, roots, null);
    WorkCallsProper(w, roots);
    EarlyIsNotKept(w, Worked(w, roots).1, Worked(w, roots).0, q);
  }

  lemma {:induction false} OwnedOfGrow<T, L>(roots: seq<Module<T, L>>, n: nat, k: nat)
    requires Trees(roots) && n <= k <= |roots|
    ensures OwnedOf(roots, n) <= OwnedOf(roots, k)
  {
    hide Owned;
    if n < k {
      OwnedOfGrow(roots, n, k - 1);
    }
  }

  /** The exact condition for the cycle boundary: it holds of every cycle from every state of all modules and
      queues if and only if the roots are in order: no subtree has a queue bound that an earlier sibling's
      subtree owns, and no root one that an earlier root's tree owns. */
  lemma {:induction false} BoundaryExactly<T, L>(roots: seq<Module<T, L>>, v: T)
    requires Roots(roots) && Trees(roots)
    ensures
      (forall w: World<T, L> :: Complete(w, roots) ==> KeepsBoundary(Worked(w, roots).1, w.qs)) <==> AllOrdered(roots)
  {
    hide *;
    if AllOrdered(roots) {
      RootsApart(roots);
      forall w: World<T, L> | Complete(w, roots)
        ensures Registered(w, roots) && KeepsBoundary(Worked(w, roots).1, w.qs)
      {
        CompleteFacts(w, roots);
        NothingSeenEarly(w, roots);
      }
    } else {
      var i, q, x := FindLateRoot(roots);
      BlankFacts(roots, x.local);
      var w, _, _ := SeenEarly(roots, Blank(roots, x.local), v);
    }
  }

  lemma {:induction false} RootsApart<T, L>(roots: seq<Module<T, L>>)
    requires Roots(roots)
    ensures Apart(roots) && Trees(roots)
  {
  }

  // ---------- The pairing ----------

  lemma {:induction false} PassCallsInside<T, L>(w: World<T, L>, m: Module<T, L>) returns (y: Module<T, L>)
    requires Tree(m) && Distinct(m) && Modules(m) <= w.ms.Keys && Calls(PlainPass(w, m).1) != []
    ensures y in Modules(m) && y in Calls(PlainPass(w, m).1)
  {
    hide PlainPass, Calls, Modules, Distinct;
    y := Calls(PlainPass(w, m).1)[0];
    CallsAreRuns(PlainPass(w, m).1, y);
    if y !in Modules(m) {
      PassWithout(w, m, y);
    }
  }

  lemma {:induction false} NotPending<T, L>(w: World<T, L>, m: Module<T, L>, q: SimQueue<T>, x: Module<T, L>, v: T)
    requires Tree(m) && Modules(m) <= w.ms.Keys && Settled(w, Modules(m), x) && x in w.ms && !w.ms[x].force
    requires Lone(w, q) && q in w.qs && Waiting(w.qs[q], v)
    ensures !Pending(w, m)
  {
    hide Pending, HasEvent, Modules, Settled;
    PendingExactly(w, m);
    if y :| y in Modules(m) && HasEvent(w, y) {
      EventMeans(w, Modules(m), y, x, q, v);
      SettledForce(w, Modules(m), y, x);
    }
  }

  /** A child that is skipped at its turn is not on the active list afterwards. */
  lemma {:induction false} SkippedStays<T, L>(w: World<T, L>, m: Module<T, L>, k: nat, n: nat)
    requires Tree(m) && Distinct(m) && k < |m.submodules| && n <= |m.submodules| && Modules(m) <= w.ms.Keys
    requires Built(w) && m in w.active && w.active[m] == [] && Tree(m.submodules[k])
    requires Modules(m.submodules[k]) <= Children(w, m, k).0.ms.Keys
    requires !Pending(Children(w, m, k).0, m.submodules[k])
    ensures m in Children(w, m, n).0.active && m.submodules[k] !in Children(w, m, n).0.active[m]
  {
    hide *;
    ChildrenFrame(w, m, n);
    InOwnModules(m);
    if n == 0 {
      NoChildrenFrame(w, m);
    } else {
      SkippedStays(w, m, k, n - 1);
      ChildrenNext(w, m, n - 1);
      ChildrenFrame(w, m, n - 1);
      ChildTurnFrame(Children(w, m, n - 1).0, m, n - 1);
      if n - 1 != k {
        ChildrenDiffer(m, n - 1, k);
      }
    }
  }

  lemma {:induction false} ChildrenDiffer<T, L>(m: Module<T, L>, j: nat, k: nat)
    requires Tree(m) && Distinct(m) && j < |m.submodules| && k < |m.submodules| && j != k
    ensures m.submodules[j] != m.submodules[k] && Tree(m.submodules[j]) && Tree(m.submodules[k])
    ensures Modules(m.submodules[j]) !! Modules(m.submodules[k])
  {
    hide *;
    if j < k {
      ChildModules(m, k + 1);
      ChildModules(m, j + 1);
      ModulesUpToGrow(m, j + 1, k);
    } else {
      ChildModules(m, j + 1);
      ChildModules(m, k + 1);
      ModulesUpToGrow(m, k + 1, j);
    }
  }

  lemma {:induction false} XferAvoids<T, L>(w: World<T, L>, m: Module<T, L>, n: nat, k: nat, y: Module<T, L>)
    requires Tree(m) && Distinct(m) && Modules(m) <= w.ms.Keys && Built(w) && m in w.active && n <= |w.active[m]|
    requires k < |m.submodules| && Tree(m.submodules[k]) && y in Modules(m.submodules[k])
    requires m.submodules[k] !in w.active[m]
    ensures y !in Calls(XferUpTo(w, m, n).1)
    decreases n
  {
    hide *;
    BuiltFacts(w);
    if n == 0 {
      NoXfer(w, m);
      NoCalls<T, L>();
    } else {
      XferAvoids(w, m, n - 1, k, y);
      XferUpToNext(w, m, n);
      XferKeepsWorld(w, m, n - 1);
      var a, u := w.active[m][n - 1], XferUpTo(w, m, n - 1).0;
      BuiltFacts(u);
      var j :| 0 <= j < |m.submodules| && m.submodules[j] == a;
      ChildrenDiffer(m, j, k);
      XferRan(u, a);
      LogSplit(XferUpTo(w, m, n - 1).1, XferPass(u, a).1);
      if y in Calls(XferPass(u, a).1) {
        RanIn(u, Calls(XferPass(u, a).1), Asks(u, a), Modules(a), y);
      }
    }
  }

  /** A child with a late reader is skipped, calls a `WorkSelf` all the same, and has no `Xfer`. */
  lemma {:induction false} MissedChild<T, L>(u: World<T, L>, m: Module<T, L>, k: nat, q: SimQueue<T>, x: Module<T, L>,
                                             v: T)
    returns (y: Module<T, L>)
    requires Tree(m) && Distinct(m) && Modules(m) <= u.ms.Keys && Built(u) && k < |m.submodules|
    requires Tree(m.submodules[k]) && Late(Watched, m.submodules[k], q, x) && Settled(u, Modules(m), x)
    requires Lone(u, q) && q in u.qs && Waiting(u.qs[q], v) && x in u.ms && !u.ms[x].force
    ensures Built(WorkPass(u, m).0) && m in WorkPass(u, m).0.active && ActiveInside(WorkPass(u, m).0)
    ensures WorkPass(u, m).0.ms.Keys == u.ms.Keys
    ensures y in Modules(m) && y in Calls(WorkPass(u, m).1) && y !in Calls(XferPass(WorkPass(u, m).0, m).1)
  {
    hide *;
    var c, n := m.submodules[k], |m.submodules|;
    InOwnModules(m);
    ChildOf(Watched, m, k + 1);
    ChildPlaceOf(m, k + 1, x);
    ChildPlaceBefore(m, k);
    LateFacts(Watched, c, q, x);
    ActivateFrame(u, m, []);
    ActiveNow(u, m);
    var u0 := WithActive(u, m, []);
    NoEventHere(u, m, q, x, v);
    VisitFrame(u0, m);
    VisitLog(u0, m);
    StillVisit(u0, m);
    var w1, w2 := WorkStages(u, m);
    QueueLater(u0, w1, {}, q, v);
    SettledLater(u0, w1, {}, Modules(m), Modules(m), x);
    // up to child k nobody is called and nothing moves in q
    AgreeHere(w1);
    ChildrenArePlain(w1, w1, m, k);
    StartsOnItsWay(w1, Modules(m), ModulesUpTo(m, k), OwnedUpTo(m, k), q, x, v);
    OnlyEarlyChildren(w1, m, k, q, x, v);
    StillChildren(w1, m, k);
    var plain, uk := PlainChildren(w1, m, k).0, Children(w1, m, k).0;
    QueueLater(w1, plain, OwnedUpTo(m, k), q, v);
    SettledLater(w1, plain, OwnedUpTo(m, k), Modules(m), Modules(c), x);
    StillKeys(w1, plain, OwnedUpTo(m, k));
    AlikeHere(plain, uk, Modules(c), x, q);
    ChildrenFrame(w1, m, k);
    ChildrenNext(w1, m, k);
    NotPending(uk, c, q, x, v);
    AgreeHere(uk);
    ChildTurnIsPlain(uk, uk, m, k);
    LateIsEarly(uk, c, Watched, q, x, v);
    EarlyCalls(PlainPass(uk, c).1, q);
    y := PassCallsInside(uk, c);
    // it is called in the pass, and not in the Xfer
    CalledLater(w1, m, k, n, y);
    LogSplit(Visit(u0, m).1 + Children(w1, m, n).1, AdvanceOwned(w2, m.ownedQueues).1);
    LogSplit(Visit(u0, m).1, Children(w1, m, n).1);
    SkippedStays(w1, m, k, n);
    ChildrenFrame(w1, m, n);
    OwnedFrame(w2, m.ownedQueues, Modules(m));
    var w3 := WorkPass(u, m).0;
    BuiltFacts(w3);
    var x1 := XferStages(w3, m);
    XferAvoids(x1, m, |w3.active[m]|, k, y);
    NoOwnXfer(w3, m);
    NoCalls<T, L>();
    LogSplit(XferTurn(w3, m).1, XferUpTo(x1, m, |w3.active[m]|).1);
  }

  lemma {:induction false} NoOwnXfer<T, L>(w: World<T, L>, m: Module<T, L>)
    requires m in w.ms && !w.ms[m].ran
    ensures XferTurn(w, m).1 == []
  {
  }

  lemma {:induction false} AgreeHere<T, L>(w: World<T, L>)
    ensures Agree(w, w)
  {
  }

  lemma {:induction false} AlikeHere<T, L>(w: World<T, L>, w': World<T, L>, ms: set<Module<T, L>>, x: Module<T, L>,
                                           q: SimQueue<T>)
    requires Agree(w', w) && Settled(w, ms, x) && Lone(w, q)
    ensures Settled(w', ms, x) && Lone(w', q) && w'.qs == w.qs && w'.ms == w.ms
  {
  }

  lemma {:induction false} NoEventHere<T, L>(u: World<T, L>, m: Module<T, L>, q: SimQueue<T>, x: Module<T, L>, v: T)
    requires Tree(m) && Settled(u, Modules(m), x) && x in u.ms && !u.ms[x].force && m in u.ms
    requires Lone(u, q) && q in u.qs && Waiting(u.qs[q], v)
    ensures
      var u0 := WithActive(u, m, []);
      && u0.ms == u.ms && u0.qs == u.qs && Lone(u0, q) && Settled(u0, Modules(m), x) && !HasEvent(u0, m)
  {
    InOwnModules(m);
    var u0 := WithActive(u, m, []);
    assert Settled(u0, Modules(m), x);
    EventMeans(u0, Modules(m), m, x, q, v);
  }

  lemma {:induction false} CalledLater<T, L>(w: World<T, L>, m: Module<T, L>, k: nat, n: nat, y: Module<T, L>)
    requires Tree(m) && k < n <= |m.submodules| && Modules(m) <= w.ms.Keys && m in w.active
    requires Modules(m.submodules[k]) <= Children(w, m, k).0.ms.Keys && m in Children(w, m, k).0.active
    requires y in Calls(ChildTurn(Children(w, m, k).0, m, k).1)
    ensures y in Calls(Children(w, m, n).1)
  {
    hide *;
    ChildrenNext(w, m, n - 1);
    var r1 := Children(w, m, n - 1);
    LogSplit(r1.1, ChildTurn(r1.0, m, n - 1).1);
    if k < n - 1 {
      CalledLater(w, m, k, n - 1, y);
    }
  }

  lemma {:induction false} RootCalled<T, L>(w: World<T, L>, roots: seq<Module<T, L>>, i: nat, n: nat, y: Module<T, L>)
    requires Registered(w, roots) && i < n <= |roots| && Tree(roots[i])
    requires Modules(roots[i]) <= WorkAll(w, roots, i).0.ms.Keys
    requires y in Calls(WorkPass(WorkAll(w, roots, i).0, roots[i]).1)
    ensures y in Calls(WorkAll(w, roots, n).1)
  {
    hide *;
    WorkAllNext(w, roots, n - 1);
    LogSplit(WorkAll(w, roots, n - 1).1, WorkPass(WorkAll(w, roots, n - 1).0, roots[n - 1]).1);
    if i < n - 1 {
      RootCalled(w, roots, i, n - 1, y);
    }
  }

  lemma {:induction false} RootNotCalled<T, L>(w: World<T, L>, roots: seq<Module<T, L>>, i: nat, n: nat,
                                               y: Module<T, L>)
    requires Registered(w, roots) && Apart(roots) && i < |roots| && n <= |roots|
    requires Tree(roots[i]) && y in Modules(roots[i])
    requires
      var v := WorkAll(w, roots, i).0;
      && Modules(roots[i]) <= v.ms.Keys && ActiveInside(WorkPass(v, roots[i]).0)
      && roots[i] in WorkPass(v, roots[i]).0.active && y !in Calls(XferPass(WorkPass(v, roots[i]).0, roots[i]).1)
    ensures y !in Calls(XferAll(Worked(w, roots).0, roots, n).1)
  {
    hide *;
    WorkedIs(w, roots);
    var all := Worked(w, roots).0;
    if n == 0 {
      NothingYet(all, roots);
      NoCalls<T, L>();
    } else {
      RootNotCalled(w, roots, i, n - 1, y);
      XferAllNext(all, roots, n - 1);
      var u, c := XferAll(all, roots, n - 1).0, roots[n - 1];
      LogSplit(XferAll(all, roots, n - 1).1, XferPass(u, c).1);
      if n - 1 == i {
        RootXfer(w, roots, i);
      } else {
        OtherRoots(roots, n - 1, i);
        XferRan(u, c);
        if y in Calls(XferPass(u, c).1) {
          RanIn(u, Calls(XferPass(u, c).1), Asks(u, c), Modules(c), y);
        }
      }
    }
  }

  lemma {:induction false} FindUnordered<T, L>(roots: seq<Module<T, L>>) returns (i: nat, k: nat)
    requires Trees(roots) && !AllOrderedBelow(roots)
    ensures i < |roots| && Tree(roots[i]) && k < |roots[i].submodules| && Tree(roots[i].submodules[k])
    ensures !Ordered(Watched, roots[i].submodules[k])
  {
    i :| 0 <= i < |roots| && !OrderedBelow(Watched, roots[i]);
    k :| 0 <= k < |roots[i].submodules| && !Ordered(Watched, roots[i].submodules[k]);
  }

  /** When some child of a root is not in order, every state after a reset is one entry on its way from a
      state in which the `WorkSelf` of some module runs without its `XferSelf`. */
  lemma {:induction false} Unpaired<T, L>(roots: seq<Module<T, L>>, rest: World<T, L>, v: T)
    returns (w: World<T, L>, q: SimQueue<T>, y: Module<T, L>)
    requires Roots(roots) && Trees(roots) && !AllOrderedBelow(roots) && Complete(rest, roots) && Rested(rest, roots)
    ensures q in rest.qs && Cleared(rest.qs[q]) && w == Primed(rest, q, v)
    ensures Complete(w, roots) && Registered(w, roots)
    ensures y in Calls(Worked(w, roots).1) && y !in Calls(Transferred(w, roots).1)
  {
    hide *;
    var i, k := FindUnordered(roots);
    var c := roots[i].submodules[k];
    var x;
    q, x := FindLate(Watched, c);
    CompleteFacts(rest, roots);
    RootsApart(roots);
    RegisteredAt(rest, roots, i);
    ApartAt(roots, i);
    RootModules(roots, i, |roots|);
    ModulesOfGrow(roots, i, |roots|);
    ChildOf(Watched, roots[i], k + 1);
    LateFacts(Watched, c, q, x);
    OwnedGrow(roots[i], k + 1, |roots[i].submodules|);
    OwnOwned(roots[i]);
    ModulesOfNext(roots, i + 1);
    OwnedOfGrow(roots, i + 1, |roots|);
    QueueThere(rest, roots, |roots|, q);
    w := Primed(rest, q, v);
    PrimedFacts(rest, roots, q, v, x);
    RegisteredAt(w, roots, i);
    var ms := ModulesOf(roots, |roots|);
    StartsOnItsWay(w, ms, ModulesOf(roots, i), OwnedOf(roots, i), q, x, v);
    OnlyEarlyAll(w, roots, i, q, x, v);
    StillAll(w, roots, i);
    WorkAllIsPlain(w, roots, i);
    WorkAllNext(w, roots, i);
    var plain, u := PlainAll(w, roots, i).0, WorkAll(w, roots, i).0;
    QueueLater(w, plain, OwnedOf(roots, i), q, v);
    SettledLater(w, plain, OwnedOf(roots, i), ms, Modules(roots[i]), x);
    StillKeys(w, plain, OwnedOf(roots, i));
    AlikeHere(plain, u, Modules(roots[i]), x, q);
    y := MissedChild(u, roots[i], k, q, x, v);
    WorkedIs(w, roots);
    RootCalled(w, roots, i, |roots|, y);
    RootNotCalled(w, roots, i, |roots|, y);
  }

  /** The exact condition for the pairing: `XferSelf` is called on exactly the modules whose `WorkSelf` ran,
      in the same order, in every cycle from every state of all modules and queues, if and only if every
      child of every root is in order: below it no subtree watches a queue that an earlier sibling's subtree
      owns. Among the children of a root, and among the roots, anything goes. */
  lemma {:induction false} PairsExactly<T, L>(roots: seq<Module<T, L>>, v: T)
    requires Roots(roots) && Trees(roots)
    ensures
      (forall w: World<T, L> :: Complete(w, roots) ==> Calls(Transferred(w, roots).1) == Calls(Worked(w, roots).1))
      <==> AllOrderedBelow(roots)
  {
    hide *;
    if AllOrderedBelow(roots) {
      RootsApart(roots);
      forall w: World<T, L> | Complete(w, roots)
        ensures Registered(w, roots) && Calls(Transferred(w, roots).1) == Calls(Worked(w, roots).1)
      {
        CompleteFacts(w, roots);
        SystemPairs(w, roots);
      }
    } else {
      var i, k := FindUnordered(roots);
      BlankFacts(roots, roots[i].local);
      var w, _, y := Unpaired(roots, Blank(roots, roots[i].local), v);
    }
  }

  // ---------- Corollaries ----------

  lemma {:induction false} WatchedIsBoundUpTo<T, L>(m: Module<T, L>, n: nat)
    requires Tree(m) && n <= |m.submodules|
    ensures SeenUpTo(Watched, m, n) <= SeenUpTo(Bound, m, n)
    ensures forall k :: 0 <= k < n && Ordered(Bound, m.submodules[k]) ==> Ordered(Watched, m.submodules[k])
    ensures forall k :: 0 <= k < n ==> Seen(Watched, m.submodules[k]) <= Seen(Bound, m.submodules[k])
    decreases m.height, n
  {
    hide Ordered, Seen, Owned, OwnedUpTo;
    if n > 0 {
      WatchedIsBoundUpTo(m, n - 1);
      WatchedIsBound(m.submodules[n - 1]);
    }
  }

  lemma {:induction false} WatchedIsBound<T, L>(m: Module<T, L>)
    requires Tree(m)
    ensures Seen(Watched, m) <= Seen(Bound, m) && (Ordered(Bound, m) ==> Ordered(Watched, m))
    decreases m.height, |m.submodules| + 1
  {
    forall q | q in SightSet(Watched, m)
      ensures q in SightSet(Bound, m)
    {
      SightIsBound(Watched, m, q);
    }
    WatchedIsBoundUpTo(m, |m.submodules|);
  }

  /** Roots that keep the cycle boundary also pair. */
  lemma {:induction false} OrderedPairs<T, L>(roots: seq<Module<T, L>>)
    requires Trees(roots) && AllOrdered(roots)
    ensures AllOrderedBelow(roots)
  {
    forall i | 0 <= i < |roots|
      ensures OrderedBelow(Watched, roots[i])
    {
      AllOrderedAt(roots, i);
      WatchedIsBound(roots[i]);
      SeenParts(Watched, roots[i]);
    }
  }

  /** Hierarchically wired roots are in order, so both hold of them. */
  lemma {:induction false} WiredRoots<T, L>(roots: seq<Module<T, L>>)
    requires Roots(roots) && Trees(roots) && forall i {:trigger roots[i]} :: 0 <= i < |roots| ==> Wired(roots[i], {})
    ensures AllOrdered(roots) && AllOrderedBelow(roots)
  {
    forall i | 0 <= i < |roots|
      ensures Ordered(Bound, roots[i]) && Seen(Bound, roots[i]) !! OwnedOf(roots, i)
    {
      ApartAt(roots, i);
      assert {} !! Owned(roots[i]);
      WiredIsOrdered(Bound, roots[i], {});
    }
    OrderedPairs(roots);
  }
}

/** Two roots of one module each: the second reads a queue that the first owns. */
module LateRoot {
  import opened SimQueues
  import opened Scheduler
  import opened SchedulerTheorems
  import opened Wiring
  import opened SystemCycles
  import opened WiringExactly
  import opened UnwiredTree

  ghost predicate TwoRoots(first: Node, second: Node, q: IntQueue) {
    && first != second && first.submodules == [] && second.submodules == []
    && first.ownedQueues == [q] && second.ownedQueues == [] && first.Ports() == [] && second.Ports() == [q]
  }

  /** Two modules without submodules, as the roots of a system. */
  lemma {:induction false} Both(a: Node, b: Node)
    requires a.submodules == [] && b.submodules == [] && a != b && |a.ownedQueues| <= 1 && |b.ownedQueues| <= 1
    requires QueueSet(a.ownedQueues) !! QueueSet(b.ownedQueues)
    ensures Roots([a, b]) && Trees([a, b])
    ensures AllOrdered([a, b]) <==> SightSet(Bound, b) !! QueueSet(a.ownedQueues)
  {
    var roots := [a, b];
    Leaf(a, Bound);
    Leaf(b, Bound);
    hide Tree, Modules, Owned, Ordered, Seen, Distinct;
    assert roots[0] == a && roots[1] == b;
    assert Trees(roots);
    NoRoots(roots);
    ModulesOfNext(roots, 1);
  }

  /** Registered in this order, some state lets the second see in a cycle what became readable in it;
      registered the other way round, none does. */
  lemma {:induction false} SecondSeesEarly(first: Node, second: Node, q: IntQueue) returns (w: World<int, int>)
    requires TwoRoots(first, second, q)
    ensures Complete(w, [first, second])
    ensures Registered(w, [first, second]) && !KeepsBoundary(Worked(w, [first, second]).1, w.qs)
    ensures Roots([second, first]) && Trees([second, first]) && AllOrdered([second, first])
  {
    assert q in SightSet(Bound, second) && q in QueueSet(first.ownedQueues);
    assert SightSet(Bound, first) == {} && QueueSet(second.ownedQueues) == {};
    hide *;
    TwoRootsFacts(first, second, q);
    Both(first, second);
    Both(second, first);
    BlankFacts([first, second], 0);
    var p, x;
    w, p, x := SeenEarly([first, second], Blank([first, second], 0), 7);
  }

  lemma {:induction false} TwoRootsFacts(first: Node, second: Node, q: IntQueue)
    requires TwoRoots(first, second, q)
    ensures first.submodules == [] && second.submodules == [] && first != second
    ensures |first.ownedQueues| == 1 && |second.ownedQueues| == 0
  {
  }

  method BuildTwoRoots() returns (first: Node, second: Node, q: IntQueue)
    ensures TwoRoots(first, second, q)
  {
    q := new SimQueue(1, 1);
    var reset := (local: int) => local;
    first := new Module([], [], [], [], [q], Idle, Idle, reset, 0, 0);
    second := new Module([q], [], [], [], [], Idle, Idle, reset, 0, 0);
  }
}
