/** When a module wakes, and what a reset leaves behind. */
module SchedulerWake {
  import opened Words
  import opened QueueSpec
  import opened QueueHistory
  import opened SimQueues
  import opened Scheduler
  import opened SchedulerTheorems

  // ---------- Wake-ups ----------

  /** One of the two lists a module watches, and what it last saw there. */
  ghost predicate Watches<T, L>(w: World<T, L>, m: Module<T, L>, queues: seq<SimQueue?<T>>, seen: seq<u64>)
    requires m in w.ms
  {
    || (queues == m.inputs && seen == w.ms[m].observedInputs)
    || (queues == m.inners && seen == w.ms[m].observedInners)
  }

  /** The turn of a module ends by capturing the epochs of what it watches, and with no activation
      request pending, whether or not its `WorkSelf` made one. */
  lemma {:induction false} TurnCaptures<T, L>(w: World<T, L>, m: Module<T, L>)
    requires m in w.ms
    ensures
      var w' := SelfTurn(w, m);
      && m in w'.ms && !w'.ms[m].force && !HasEvent(w', m)
      && Watches(w', m, m.inputs, Epochs(w', m.inputs)) && Watches(w', m, m.inners, Epochs(w', m.inners))
  {
    var step := m.workSelf(w.ms[m].local, Views(w, m.Ports()));
    var w' := w.(qs := PortRun(w.qs, m.Ports(), step.ops));
    EpochsOfQueues(w', SelfTurn(w, m), m.inputs);
    EpochsOfQueues(w', SelfTurn(w, m), m.inners);
  }

  /** Any change of a watched queue since the capture, fewer than 2^64 of them and no reset, is an event. */
  lemma {:induction false} ChangesWake<T, L>(
    w0: World<T, L>, w: World<T, L>, m: Module<T, L>, queues: seq<SimQueue?<T>>, k: nat, ops: seq<Op<T>>)
    requires m in w.ms && k < |queues| && queues[k] != null
    requires Watches(w, m, queues, Epochs(w0, queues))
    requires Q(w, queues[k]) == Run(Q(w0, queues[k]), ops) && NoReset(ops)
    requires 0 < ChangeCount(Q(w0, queues[k]), ops) < TWO_64
    ensures HasEvent(w, m)
  {
    EpochIsVersion(Q(w0, queues[k]), ops);
    assert Epochs(w, queues)[k] != Epochs(w0, queues)[k];
  }

  lemma {:induction false} PendingChild<T, L>(w: World<T, L>, m: Module<T, L>, n: nat, x: Module<T, L>)
    requires Tree(m) && n <= |m.submodules| && Modules(m) <= w.ms.Keys && ModulesUpTo(m, n) <= w.ms.Keys
    requires x in ModulesUpTo(m, n) && x in w.ms && HasEvent(w, x)
    ensures PendingUpTo(w, m, n)
    decreases m.height, n
  {
    hide HasEvent;
    InModules(m, n);
    if x in ModulesUpTo(m, n - 1) {
      PendingChild(w, m, n - 1, x);
    } else {
      EventIsPending(w, m.submodules[n - 1], x);
    }
  }

  lemma {:induction false} EventIsPending<T, L>(w: World<T, L>, m: Module<T, L>, x: Module<T, L>)
    requires Tree(m) && Modules(m) <= w.ms.Keys && x in Modules(m) && HasEvent(w, x)
    ensures Pending(w, m)
    decreases m.height, |m.submodules| + 1
  {
    hide HasEvent;
    if x != m {
      PendingChild(w, m, |m.submodules|, x);
    }
  }

  lemma {:induction false} PendingChildHasEvent<T, L>(w: World<T, L>, m: Module<T, L>, n: nat) returns (x: Module<T, L>)
    requires Tree(m) && n <= |m.submodules| && ModulesUpTo(m, n) <= w.ms.Keys && PendingUpTo(w, m, n)
    ensures x in ModulesUpTo(m, n) && HasEvent(w, x)
    decreases m.height, n
  {
    hide HasEvent;
    if PendingUpTo(w, m, n - 1) {
      x := PendingChildHasEvent(w, m, n - 1);
    } else {
      x := PendingHasEvent(w, m.submodules[n - 1]);
    }
  }

  lemma {:induction false} PendingHasEvent<T, L>(w: World<T, L>, m: Module<T, L>) returns (x: Module<T, L>)
    requires Tree(m) && Modules(m) <= w.ms.Keys && Pending(w, m)
    ensures x in Modules(m) && HasEvent(w, x)
    decreases m.height, |m.submodules| + 1
  {
    hide HasEvent;
    if HasEvent(w, m) {
      x := m;
    } else {
      x := PendingChildHasEvent(w, m, |m.submodules|);
    }
  }

  /** A subtree is pending if and only if some module in it has an event, at any depth. */
  lemma {:induction false} PendingExactly<T, L>(w: World<T, L>, m: Module<T, L>)
    requires Tree(m) && Modules(m) <= w.ms.Keys
    ensures Pending(w, m) <==> exists x :: x in Modules(m) && HasEvent(w, x)
  {
    hide HasEvent, Pending;
    if Pending(w, m) {
      var x := PendingHasEvent(w, m);
    }
    if x :| x in Modules(m) && HasEvent(w, x) {
      EventIsPending(w, m, x);
    }
  }

  // ---------- Reset ----------

  /** Nothing ran, nothing is forced, and everything watched has been seen. */
  ghost predicate AtRest<T, L>(w: World<T, L>, m: Module<T, L>)
    requires m in w.ms
  {
    && !w.ms[m].ran && !HasEvent(w, m)
    && m in w.active && w.active[m] == []
  }

  lemma {:induction false} QuietRests<T, L>(w: World<T, L>, m: Module<T, L>)
    requires m in w.ms
    ensures
      var w' := QuietModule(w, m);
      && w'.ms.Keys == w.ms.Keys && AtRest(w', m)
      && forall x :: x in w.ms && AtRest(w, x) ==> AtRest(w', x)
  {
    var w' := QuietModule(w, m);
    forall x | x in w.ms
      ensures Epochs(w', x.inputs) == Epochs(w, x.inputs) && Epochs(w', x.inners) == Epochs(w, x.inners)
    {
      EpochsOfQueues(w, w', x.inputs);
      EpochsOfQueues(w, w', x.inners);
    }
  }

  ghost predicate StillRests<T, L>(w: World<T, L>, w': World<T, L>) {
    w'.ms.Keys == w.ms.Keys && forall x :: x in w.ms && AtRest(w, x) ==> AtRest(w', x)
  }

  lemma {:induction false} ResetEventsUpToRests<T, L>(w: World<T, L>, m: Module<T, L>, n: nat)
    requires Tree(m) && n <= |m.submodules| && Modules(m) <= w.ms.Keys
    ensures StillRests(w, ResetEventsUpTo(w, m, n))
    ensures forall x :: x in ModulesUpTo(m, n) ==> x in w.ms && AtRest(ResetEventsUpTo(w, m, n), x)
    decreases m.height, n
  {
    hide AtRest;
    if n > 0 {
      InModules(m, n);
      ResetEventsUpToRests(w, m, n - 1);
      ResetEventsRests(ResetEventsUpTo(w, m, n - 1), m.submodules[n - 1]);
    }
  }

  lemma {:induction false} ResetEventsRests<T, L>(w: World<T, L>, m: Module<T, L>)
    requires Tree(m) && Modules(m) <= w.ms.Keys
    ensures StillRests(w, ResetEvents(w, m))
    ensures forall x :: x in Modules(m) ==> x in w.ms && AtRest(ResetEvents(w, m), x)
    decreases m.height, |m.submodules| + 1
  {
    hide AtRest, QuietModule;
    QuietRests(w, m);
    ResetEventsUpToRests(QuietModule(w, m), m, |m.submodules|);
  }

  /** An empty queue at epoch 0, not stalled; capacity and latency are kept. */
  predicate Cleared<T>(q: QState<T>) {
    q.readQ == [] && q.writeQ == [] && q.delayQ == [] && !q.stalled && q.epoch == 0
  }

  /** From w to w' queues in `cleared` become clear, clear queues stay clear, and no other changes. */
  ghost predicate Clears<T, L>(w: World<T, L>, w': World<T, L>, cleared: set<SimQueue<T>>) {
    && w'.qs.Keys == w.qs.Keys
    && forall q :: q in w.qs ==>
         if q in cleared
         then Cleared(w'.qs[q]) && w'.qs[q].maxSize == w.qs[q].maxSize && w'.qs[q].latency == w.qs[q].latency
         else w'.qs[q] == w.qs[q]
  }

  lemma {:induction false} ResetOneClears<T, L>(w: World<T, L>, q: SimQueue<T>)
    ensures Clears(w, if q in w.qs then w.(qs := w.qs[q := Apply(w.qs[q], Op.Reset)]) else w, {q})
  {
  }

  lemma {:induction false} ResetOwnedClears<T, L>(w: World<T, L>, qs: seq<SimQueue<T>>)
    ensures Clears(w, ResetOwned(w, qs), QueueSet(qs))
  {
    hide Clears;
    if qs == [] {
      SameQueuesClear(w, w);
      assert QueueSet(qs) == {};
    } else {
      var n := |qs| - 1;
      ResetOwnedClears(w, qs[..n]);
      ResetOneClears(ResetOwned(w, qs[..n]), qs[n]);
      ClearsThen(w, ResetOwned(w, qs[..n]), ResetOwned(w, qs), QueueSet(qs[..n]), {qs[n]});
      assert qs == qs[..n] + [qs[n]];
      assert QueueSet(qs) == QueueSet(qs[..n]) + {qs[n]};
    }
  }

  lemma {:induction false} ClearsThen<T, L>(w: World<T, L>, w1: World<T, L>, w2: World<T, L>, a: set<SimQueue<T>>,
                                            b: set<SimQueue<T>>)
    requires Clears(w, w1, a) && Clears(w1, w2, b)
    ensures Clears(w, w2, a + b)
  {
  }

  lemma {:induction false} SameQueuesClear<T, L>(w: World<T, L>, w': World<T, L>)
    requires w'.qs == w.qs
    ensures Clears(w, w', {})
  {
  }

  lemma {:induction false} ResetUpToClears<T, L>(w: World<T, L>, m: Module<T, L>, n: nat)
    requires Tree(m) && n <= |m.submodules| && Modules(m) <= w.ms.Keys
    ensures Clears(w, ResetUpTo(w, m, n), OwnedUpTo(m, n))
    decreases m.height, n
  {
    hide Clears, ResetPass;
    if n == 0 {
      SameQueuesClear(w, w);
    } else {
      InModules(m, n);
      ResetUpToClears(w, m, n - 1);
      ResetClears(ResetUpTo(w, m, n - 1), m.submodules[n - 1]);
      ClearsThen(w, ResetUpTo(w, m, n - 1), ResetUpTo(w, m, n), OwnedUpTo(m, n - 1), Owned(m.submodules[n - 1]));
    }
  }

  lemma {:induction false} ResetClears<T, L>(w: World<T, L>, m: Module<T, L>)
    requires Tree(m) && Modules(m) <= w.ms.Keys
    ensures Clears(w, ResetPass(w, m), Owned(m))
    decreases m.height, |m.submodules| + 1
  {
    hide Clears, ResetUpTo, ResetEvents, ResetOwned;
    var n := |m.submodules|;
    var w1 := WithState(w, m, w.ms[m].(local := m.resetSelf(w.ms[m].local)));
    var w2 := ResetUpTo(w1, m, n);
    var w3 := ResetOwned(w2, m.ownedQueues);
    SameQueuesClear(w, w1);
    ResetUpToClears(w1, m, n);
    ResetOwnedClears(w2, m.ownedQueues);
    SameQueuesClear(w3, ResetEvents(w3, m));
    ClearsThen(w, w1, w2, {}, OwnedUpTo(m, n));
    ClearsThen(w, w2, w3, {} + OwnedUpTo(m, n), QueueSet(m.ownedQueues));
    ClearsThen(w, w3, ResetEvents(w3, m), {} + OwnedUpTo(m, n) + QueueSet(m.ownedQueues), {});
    assert {} + OwnedUpTo(m, n) + QueueSet(m.ownedQueues) + {} == Owned(m);
  }

  lemma {:induction false} ResetRests<T, L>(w: World<T, L>, m: Module<T, L>)
    requires Tree(m) && Modules(m) <= w.ms.Keys
    ensures forall x :: x in Modules(m) ==> x in w.ms && AtRest(ResetPass(w, m), x)
  {
    hide AtRest, ResetUpTo, ResetEvents, ResetOwned;
    var w1 := WithState(w, m, w.ms[m].(local := m.resetSelf(w.ms[m].local)));
    ResetEventsRests(ResetOwned(ResetUpTo(w1, m, |m.submodules|), m.ownedQueues), m);
  }

  /** After a reset of a tree exactly its owned queues have been emptied, every module in it is at rest
      with an empty active list, and nothing in it is pending. */
  lemma {:induction false} ResetQuiets<T, L>(w: World<T, L>, root: Module<T, L>)
    requires Tree(root) && Modules(root) <= w.ms.Keys
    ensures Clears(w, ResetPass(w, root), Owned(root))
    ensures forall x :: x in Modules(root) ==> x in w.ms && AtRest(ResetPass(w, root), x)
    ensures !Pending(ResetPass(w, root), root)
  {
    hide Clears, ResetPass, Pending, HasEvent;
    ResetClears(w, root);
    ResetRests(w, root);
    PendingExactly(ResetPass(w, root), root);
  }
}
