/** Skipping idle subtrees is sound, and a pass advances each owned queue once. */
module SchedulerTheorems {
  import opened SimQueues
  import opened Scheduler

  // ---------- The plain pass: visit everything, skip nothing ----------

  ghost function PlainChildren<T, L>(w: World<T, L>, m: Module<T, L>, n: nat): (r: (World<T, L>, seq<Event<T, L>>))
    requires Tree(m) && n <= |m.submodules| && Modules(m) <= w.ms.Keys
    ensures r.0.ms.Keys == w.ms.Keys && r.0.qs.Keys == w.qs.Keys
    decreases m.height, n
  {
    if n == 0 then (w, [])
    else
      var (w1, log1) := PlainChildren(w, m, n - 1);
      InModules(m, n);
      var (w2, log2) := PlainPass(w1, m.submodules[n - 1]);
      (w2, log1 + log2)
  }

  ghost function PlainPass<T, L>(w: World<T, L>, m: Module<T, L>): (r: (World<T, L>, seq<Event<T, L>>))
    requires Tree(m) && Modules(m) <= w.ms.Keys
    ensures r.0.ms.Keys == w.ms.Keys && r.0.qs.Keys == w.qs.Keys
    decreases m.height, |m.submodules| + 1
  {
    var (w1, log1) := Visit(w, m);
    PortRunKeys(w.qs, m.Ports(), m.workSelf(w.ms[m].local, Views(w, m.Ports())).ops);
    var (w2, log2) := PlainChildren(w1, m, |m.submodules|);
    var (w3, log3) := AdvanceOwned(w2, m.ownedQueues);
    AdvanceOwnedKeys(w2, m.ownedQueues);
    (w3, log1 + log2 + log3)
  }

  /** The same modules and queues; the active lists are the scheduler's own bookkeeping. */
  ghost predicate Agree<T, L>(w1: World<T, L>, w2: World<T, L>) {
    w1.ms == w2.ms && w1.qs == w2.qs
  }

  lemma {:induction false} VisitAgrees<T, L>(w1: World<T, L>, w2: World<T, L>, m: Module<T, L>)
    requires Agree(w1, w2) && m in w1.ms
    ensures HasEvent(w1, m) == HasEvent(w2, m)
    ensures Agree(Visit(w1, m).0, Visit(w2, m).0) && Visit(w1, m).1 == Visit(w2, m).1
  {
    EpochsOfQueues(w1, w2, m.inputs);
    EpochsOfQueues(w1, w2, m.inners);
    EpochsOfQueues(w1, w2, m.Ports());
    var qs' := PortRun(w1.qs, m.Ports(), m.workSelf(w1.ms[m].local, Views(w1, m.Ports())).ops);
    EpochsOfQueues(w1.(qs := qs'), w2.(qs := qs'), m.inputs);
    EpochsOfQueues(w1.(qs := qs'), w2.(qs := qs'), m.inners);
  }

  lemma {:induction false} AdvanceAgrees<T, L>(w1: World<T, L>, w2: World<T, L>, qs: seq<SimQueue<T>>)
    requires Agree(w1, w2)
    ensures Agree(AdvanceOwned(w1, qs).0, AdvanceOwned(w2, qs).0) && AdvanceOwned(w1, qs).1 == AdvanceOwned(w2, qs).1
  {
    if qs != [] {
      AdvanceAgrees(w1, w2, qs[..|qs| - 1]);
    }
  }

  lemma {:induction false} PlainChildrenNext<T, L>(w: World<T, L>, m: Module<T, L>, k: nat)
    requires Tree(m) && k < |m.submodules| && Modules(m) <= w.ms.Keys
    ensures Tree(m.submodules[k]) && m.submodules[k].height < m.height && Modules(m.submodules[k]) <= w.ms.Keys
    ensures
      var (w1, log1) := PlainChildren(w, m, k);
      var (w2, log2) := PlainPass(w1, m.submodules[k]);
      PlainChildren(w, m, k + 1) == (w2, log1 + log2)
  {
    InModules(m, k + 1);
  }

  lemma {:induction false} ChildrenArePlain<T, L>(w1: World<T, L>, w2: World<T, L>, m: Module<T, L>, n: nat)
    requires Tree(m) && n <= |m.submodules| && Modules(m) <= w1.ms.Keys && m in w1.active && Agree(w1, w2)
    ensures Agree(Children(w1, m, n).0, PlainChildren(w2, m, n).0)
    ensures Children(w1, m, n).1 == PlainChildren(w2, m, n).1
    decreases m.height, n
  {
    hide *;
    AgreeKeys(w1, w2);
    if n == 0 {
      NoChildren(w1, w2, m);
    } else {
      ChildrenArePlain(w1, w2, m, n - 1);
      ChildrenNext(w1, m, n - 1);
      PlainChildrenNext(w2, m, n - 1);
      ChildTurnIsPlain(Children(w1, m, n - 1).0, PlainChildren(w2, m, n - 1).0, m, n - 1);
    }
  }

  lemma {:induction false} AgreeKeys<T, L>(w1: World<T, L>, w2: World<T, L>)
    requires Agree(w1, w2)
    ensures w1.ms.Keys == w2.ms.Keys
  {
  }

  lemma {:induction false} NoChildren<T, L>(w1: World<T, L>, w2: World<T, L>, m: Module<T, L>)
    requires Tree(m) && Modules(m) <= w1.ms.Keys && Modules(m) <= w2.ms.Keys && m in w1.active
    ensures Children(w1, m, 0) == (w1, []) && PlainChildren(w2, m, 0) == (w2, [])
  {
  }

  lemma {:induction false} ChildTurnIsPlain<T, L>(v1: World<T, L>, v2: World<T, L>, m: Module<T, L>, k: nat)
    requires Tree(m) && k < |m.submodules| && Modules(m.submodules[k]) <= v1.ms.Keys && m in v1.active && Agree(v1, v2)
    ensures Agree(ChildTurn(v1, m, k).0, PlainPass(v2, m.submodules[k]).0)
    ensures ChildTurn(v1, m, k).1 == PlainPass(v2, m.submodules[k]).1
    decreases m.height, 0
  {
    var child := m.submodules[k];
    if Pending(v1, child) {
      WorkIsPlain(WithActive(v1, m, v1.active[m] + [child]), v2, child);
    } else {
      IdleIsPlain(v1, v2, child);
    }
  }

  /** A pass that skips idle subtrees equals the plain pass: the same `WorkSelf` calls in the same order
      on the same queue states, the same queues advanced in the same order, and the same resulting
      modules and queues. This needs nothing of how the queues are wired. */
  lemma {:induction false} WorkIsPlain<T, L>(w1: World<T, L>, w2: World<T, L>, m: Module<T, L>)
    requires Tree(m) && Modules(m) <= w1.ms.Keys && Agree(w1, w2)
    ensures
      var a, b := WorkPass(w1, m), PlainPass(w2, m);
      Agree(a.0, b.0) && a.1 == b.1
    decreases m.height, |m.submodules| + 1
  {
    var w1' := WithActive(w1, m, []);
    VisitAgrees(w1', w2, m);
    PortRunKeys(w1.qs, m.Ports(), m.workSelf(w1.ms[m].local, Views(w1', m.Ports())).ops);
    var (v1, _) := Visit(w1', m);
    var (v2, _) := Visit(w2, m);
    ChildrenArePlain(v1, v2, m, |m.submodules|);
    AdvanceAgrees(Children(v1, m, |m.submodules|).0, PlainChildren(v2, m, |m.submodules|).0, m.ownedQueues);
  }

  /** Skipping a subtree whose top has no event is also what the plain pass does there. */
  lemma {:induction false} IdleIsPlain<T, L>(w1: World<T, L>, w2: World<T, L>, m: Module<T, L>)
    requires Tree(m) && Modules(m) <= w1.ms.Keys && Agree(w1, w2) && !HasEvent(w1, m)
    ensures
      var a, b := IdlePass(w1, m), PlainPass(w2, m);
      Agree(a.0, b.0) && a.1 == b.1
    decreases m.height, |m.submodules| + 1
  {
    VisitAgrees(w1, w2, m);
    var v1 := WithActive(WithState(w1, m, w1.ms[m].(ran := false)), m, []);
    var (v2, none) := Visit(w2, m);
    assert none == [];
    ChildrenArePlain(v1, v2, m, |m.submodules|);
    AdvanceAgrees(Children(v1, m, |m.submodules|).0, PlainChildren(v2, m, |m.submodules|).0, m.ownedQueues);
    var log2 := Children(v1, m, |m.submodules|).1;
    assert [] + log2 == log2;
  }

  // ---------- Every owned queue advances exactly once ----------

  ghost function OwnedUpTo<T, L>(m: Module<T, L>, n: nat): set<SimQueue<T>>
    requires Tree(m) && n <= |m.submodules|
    decreases m.height, n
  {
    if n == 0 then {} else OwnedUpTo(m, n - 1) + Owned(m.submodules[n - 1])
  }

  ghost function QueueSet<T>(qs: seq<SimQueue<T>>): set<SimQueue<T>> {
    set q | q in qs
  }

  /** The queues owned by a module or anything below it. */
  ghost function Owned<T, L>(m: Module<T, L>): set<SimQueue<T>>
    requires Tree(m)
    decreases m.height, |m.submodules| + 1
  {
    OwnedUpTo(m, |m.submodules|) + QueueSet(m.ownedQueues)
  }

  /** Ownership is unique: no module is below two parents and no queue has two owners. */
  ghost predicate Distinct<T, L>(m: Module<T, L>)
    requires Tree(m)
    decreases m.height
  {
    && m !in ModulesUpTo(m, |m.submodules|)
    && (forall j, k :: 0 <= j < k < |m.ownedQueues| ==> m.ownedQueues[j] != m.ownedQueues[k])
    && QueueSet(m.ownedQueues) !! OwnedUpTo(m, |m.submodules|)
    && forall k {:trigger Distinct(m.submodules[k])} :: 0 <= k < |m.submodules| ==>
         && Distinct(m.submodules[k])
         && Modules(m.submodules[k]) !! ModulesUpTo(m, k)
         && Owned(m.submodules[k]) !! OwnedUpTo(m, k)
  }

  ghost function Advances<T, L>(log: seq<Event<T, L>>): seq<SimQueue<T>> {
    if log == [] then []
    else Advances(log[..|log| - 1]) + if log[|log| - 1].Advanced? then [log[|log| - 1].q] else []
  }

  ghost function Calls<T, L>(log: seq<Event<T, L>>): seq<Module<T, L>> {
    if log == [] then []
    else Calls(log[..|log| - 1]) + if log[|log| - 1].Ran? then [log[|log| - 1].m] else []
  }

  lemma {:induction false} LogSplit<T, L>(a: seq<Event<T, L>>, b: seq<Event<T, L>>)
    ensures Advances(a + b) == Advances(a) + Advances(b) && Calls(a + b) == Calls(a) + Calls(b)
  {
    if b == [] {
      assert a + b == a;
    } else {
      LogSplit(a, b[..|b| - 1]);
      assert (a + b)[..|a + b| - 1] == a + b[..|b| - 1];
    }
  }

  ghost function PostOrderUpTo<T, L>(m: Module<T, L>, n: nat): seq<SimQueue<T>>
    requires Tree(m) && n <= |m.submodules|
    decreases m.height, n
  {
    if n == 0 then [] else PostOrderUpTo(m, n - 1) + PostOrder(m.submodules[n - 1])
  }

  /** The owned queues of a tree, children first. */
  ghost function PostOrder<T, L>(m: Module<T, L>): seq<SimQueue<T>>
    requires Tree(m)
    decreases m.height, |m.submodules| + 1
  {
    PostOrderUpTo(m, |m.submodules|) + m.ownedQueues
  }

  lemma {:induction false} AdvanceOwnedLog<T, L>(w: World<T, L>, qs: seq<SimQueue<T>>)
    ensures Advances(AdvanceOwned(w, qs).1) == qs && Calls(AdvanceOwned(w, qs).1) == []
  {
    if qs != [] {
      AdvanceOwnedLog(w, qs[..|qs| - 1]);
      var last: seq<Event<T, L>> := [Advanced(qs[|qs| - 1])];
      LogSplit(AdvanceOwned(w, qs[..|qs| - 1]).1, last);
      assert last[..0] == [];
    }
  }

  lemma {:induction false} PostOrderParts<T, L>(m: Module<T, L>, n: nat)
    requires Tree(m) && n <= |m.submodules|
    ensures PostOrder(m) == PostOrderUpTo(m, |m.submodules|) + m.ownedQueues
    ensures n == 0 ==> PostOrderUpTo(m, n) == []
    ensures n > 0 ==> PostOrderUpTo(m, n) == PostOrderUpTo(m, n - 1) + PostOrder(m.submodules[n - 1])
  {
  }

  lemma {:induction false} NothingLogged<T, L>(w: World<T, L>, m: Module<T, L>)
    requires Tree(m) && Modules(m) <= w.ms.Keys
    ensures PlainChildren(w, m, 0) == (w, []) && Advances(PlainChildren(w, m, 0).1) == []
  {
  }

  lemma {:induction false} PlainChildrenAdvance<T, L>(w: World<T, L>, m: Module<T, L>, n: nat)
    requires Tree(m) && n <= |m.submodules| && Modules(m) <= w.ms.Keys
    ensures Advances(PlainChildren(w, m, n).1) == PostOrderUpTo(m, n)
    decreases m.height, n
  {
    hide *;
    PostOrderParts(m, n);
    if n == 0 {
      NothingLogged(w, m);
    } else {
      PlainChildrenAdvance(w, m, n - 1);
      PlainChildrenNext(w, m, n - 1);
      var (w1, log1) := PlainChildren(w, m, n - 1);
      PlainAdvance(w1, m.submodules[n - 1]);
      LogSplit(log1, PlainPass(w1, m.submodules[n - 1]).1);
    }
  }

  lemma {:induction false} InOwnModules<T, L>(m: Module<T, L>)
    requires Tree(m)
    ensures m in Modules(m)
  {
  }

  /** The three stages of a plain pass. */
  lemma {:induction false} PlainStages<T, L>(w: World<T, L>, m: Module<T, L>)
    returns (w1: World<T, L>, w2: World<T, L>)
    requires Tree(m) && Modules(m) <= w.ms.Keys
    ensures w1 == Visit(w, m).0 && w1.ms.Keys == w.ms.Keys && w1.qs.Keys == w.qs.Keys
    ensures w2 == PlainChildren(w1, m, |m.submodules|).0
    ensures PlainPass(w, m).0 == AdvanceOwned(w2, m.ownedQueues).0
    ensures PlainPass(w, m).1 ==
            Visit(w, m).1 + PlainChildren(w1, m, |m.submodules|).1 + AdvanceOwned(w2, m.ownedQueues).1
  {
    PortRunKeys(w.qs, m.Ports(), m.workSelf(w.ms[m].local, Views(w, m.Ports())).ops);
    w1 := Visit(w, m).0;
    w2 := PlainChildren(w1, m, |m.submodules|).0;
  }

  lemma {:induction false} PlainAdvance<T, L>(w: World<T, L>, m: Module<T, L>)
    requires Tree(m) && Modules(m) <= w.ms.Keys
    ensures Advances(PlainPass(w, m).1) == PostOrder(m)
    decreases m.height, |m.submodules| + 1
  {
    hide *;
    InOwnModules(m);
    PostOrderParts(m, 0);
    var w1, w2 := PlainStages(w, m);
    var log1, log2 := Visit(w, m).1, PlainChildren(w1, m, |m.submodules|).1;
    PlainChildrenAdvance(w1, m, |m.submodules|);
    AdvanceOwnedLog(w2, m.ownedQueues);
    VisitLog(w, m);
    assert [] + PostOrderUpTo(m, |m.submodules|) == PostOrderUpTo(m, |m.submodules|);
    LogSplit(log1, log2);
    LogSplit(log1 + log2, AdvanceOwned(w2, m.ownedQueues).1);
  }

  lemma {:induction false} VisitLog<T, L>(w: World<T, L>, m: Module<T, L>)
    requires m in w.ms
    ensures Advances(Visit(w, m).1) == [] && Calls(Visit(w, m).1) == if HasEvent(w, m) then [m] else []
  {
    if HasEvent(w, m) {
      assert Visit(w, m).1[..0] == [];
    }
  }

  ghost predicate NoRepeats<T>(qs: seq<SimQueue<T>>) {
    forall j, k :: 0 <= j < k < |qs| ==> qs[j] != qs[k]
  }

  lemma {:induction false} JoinDistinct<T>(a: seq<SimQueue<T>>, b: seq<SimQueue<T>>)
    requires NoRepeats(a) && NoRepeats(b) && QueueSet(a) !! QueueSet(b)
    ensures QueueSet(a + b) == QueueSet(a) + QueueSet(b) && NoRepeats(a + b)
  {
    assert forall j :: 0 <= j < |a| ==> a[j] in QueueSet(a);
    assert forall j :: 0 <= j < |b| ==> b[j] in QueueSet(b);
  }

  lemma {:induction false} PostOrderUpToMembers<T, L>(m: Module<T, L>, n: nat)
    requires Tree(m) && Distinct(m) && n <= |m.submodules|
    ensures QueueSet(PostOrderUpTo(m, n)) == OwnedUpTo(m, n) && NoRepeats(PostOrderUpTo(m, n))
    decreases m.height, n
  {
    hide *;
    if n == 0 {
      OwnedNone(m);
    } else {
      OwnedNext(m, n);
      PostOrderUpToMembers(m, n - 1);
      PostOrderMembers(m.submodules[n - 1]);
      JoinDistinct(PostOrderUpTo(m, n - 1), PostOrder(m.submodules[n - 1]));
    }
  }

  lemma {:induction false} OwnedNone<T, L>(m: Module<T, L>)
    requires Tree(m)
    ensures QueueSet(PostOrderUpTo(m, 0)) == OwnedUpTo(m, 0) && NoRepeats(PostOrderUpTo(m, 0))
  {
  }

  lemma {:induction false} OwnedNext<T, L>(m: Module<T, L>, n: nat)
    requires Tree(m) && Distinct(m) && 0 < n <= |m.submodules|
    ensures
      var child := m.submodules[n - 1];
      && Tree(child) && child.height < m.height
      && Distinct(child) && Owned(child) !! OwnedUpTo(m, n - 1)
      && PostOrderUpTo(m, n) == PostOrderUpTo(m, n - 1) + PostOrder(child)
      && OwnedUpTo(m, n) == OwnedUpTo(m, n - 1) + Owned(child)
  {
  }

  lemma {:induction false} PostOrderMembers<T, L>(m: Module<T, L>)
    requires Tree(m) && Distinct(m)
    ensures QueueSet(PostOrder(m)) == Owned(m) && NoRepeats(PostOrder(m))
    decreases m.height, |m.submodules| + 1
  {
    PostOrderUpToMembers(m, |m.submodules|);
    JoinDistinct(PostOrderUpTo(m, |m.submodules|), m.ownedQueues);
  }

  /** Whatever is active or skipped, one pass advances each queue owned in the tree exactly once, in
      post-order, and no other queue. */
  lemma {:induction false} EachQueueAdvancesOnce<T, L>(w: World<T, L>, m: Module<T, L>)
    requires Tree(m) && Modules(m) <= w.ms.Keys && Distinct(m)
    ensures
      var advanced := Advances(WorkPass(w, m).1);
      && advanced == PostOrder(m)
      && QueueSet(advanced) == Owned(m)
      && NoRepeats(advanced)
  {
    WorkIsPlain(w, w, m);
    PlainAdvance(w, m);
    PostOrderMembers(m);
  }
}

/** Where a tree's queues are owned and where they are seen. */
module Wiring {
  import opened SimQueues
  import opened Scheduler
  import opened SchedulerTheorems

  /** The ports whose changes wake a module, or all of its ports. */
  datatype Sight = Watched | Bound

  function InSight<T, L>(s: Sight, m: Module<T, L>): seq<SimQueue?<T>> {
    match s
    case Watched => m.inputs + m.inners
    case Bound => m.Ports()
  }

  ghost function SightSet<T, L>(s: Sight, m: Module<T, L>): set<SimQueue<T>> {
    set q: SimQueue<T> | q in InSight(s, m)
  }

  ghost function SeenUpTo<T, L>(s: Sight, m: Module<T, L>, n: nat): set<SimQueue<T>>
    requires Tree(m) && n <= |m.submodules|
    decreases m.height, n
  {
    if n == 0 then {} else SeenUpTo(s, m, n - 1) + Seen(s, m.submodules[n - 1])
  }

  /** The queues in sight of a module or anything below it. */
  ghost function Seen<T, L>(s: Sight, m: Module<T, L>): set<SimQueue<T>>
    requires Tree(m)
    decreases m.height, |m.submodules| + 1
  {
    SightSet(s, m) + SeenUpTo(s, m, |m.submodules|)
  }

  /** No subtree has in sight a queue that an earlier sibling's subtree owns. */
  ghost predicate Ordered<T, L>(s: Sight, m: Module<T, L>)
    requires Tree(m)
    decreases m.height
  {
    forall k {:trigger m.submodules[k]} :: 0 <= k < |m.submodules| ==>
      Ordered(s, m.submodules[k]) && Seen(s, m.submodules[k]) !! OwnedUpTo(m, k)
  }

  /** Every child's subtree is in order; among the children themselves anything goes. */
  ghost predicate OrderedBelow<T, L>(s: Sight, m: Module<T, L>)
    requires Tree(m)
  {
    forall k {:trigger m.submodules[k]} :: 0 <= k < |m.submodules| ==> Ordered(s, m.submodules[k])
  }

  /** Hierarchical wiring: each port is bound to a queue owned by the module itself or by one of its
      ancestors; `above` holds the ancestors' queues. */
  ghost predicate Wired<T, L>(m: Module<T, L>, above: set<SimQueue<T>>)
    requires Tree(m)
    decreases m.height
  {
    && (forall q: SimQueue<T> :: q in m.Ports() ==> q in above + QueueSet(m.ownedQueues))
    && forall k :: 0 <= k < |m.submodules| ==> Wired(m.submodules[k], above + QueueSet(m.ownedQueues))
  }

  /** What the tree says about child n-1, whatever the wiring. */
  lemma {:induction false} ChildOf<T, L>(s: Sight, m: Module<T, L>, n: nat)
    requires Tree(m) && Distinct(m) && 0 < n <= |m.submodules|
    ensures
      var c := m.submodules[n - 1];
      && Tree(c) && c.height < m.height && Distinct(c)
      && Owned(c) !! OwnedUpTo(m, n - 1) && OwnedUpTo(m, n) == OwnedUpTo(m, n - 1) + Owned(c)
      && SeenUpTo(s, m, n) == SeenUpTo(s, m, n - 1) + Seen(s, c)
      && Modules(c) <= Modules(m) && Seen(s, c) <= Seen(s, m)
      && (OrderedBelow(s, m) ==> Ordered(s, c))
      && (Ordered(s, m) ==> Ordered(s, c) && Seen(s, c) !! OwnedUpTo(m, n - 1))
  {
    InModules(m, n);
    SeenGrow(s, m, n, |m.submodules|);
    assert Distinct(m.submodules[n - 1]);
  }

  lemma {:induction false} OwnedGrow<T, L>(m: Module<T, L>, n: nat, k: nat)
    requires Tree(m) && n <= k <= |m.submodules|
    ensures OwnedUpTo(m, n) <= OwnedUpTo(m, k)
  {
    hide Owned;
    if n < k {
      OwnedGrow(m, n, k - 1);
    }
  }

  lemma {:induction false} SeenGrow<T, L>(s: Sight, m: Module<T, L>, n: nat, k: nat)
    requires Tree(m) && n <= k <= |m.submodules|
    ensures SeenUpTo(s, m, n) <= SeenUpTo(s, m, k)
  {
    hide Seen;
    if n < k {
      SeenGrow(s, m, n, k - 1);
    }
  }

  lemma {:induction false} SeenParts<T, L>(s: Sight, m: Module<T, L>)
    requires Tree(m)
    ensures Seen(s, m) == SightSet(s, m) + SeenUpTo(s, m, |m.submodules|) && SeenUpTo(s, m, 0) == {}
    ensures Ordered(s, m) ==> OrderedBelow(s, m)
  {
  }

  // ---------- Hierarchical wiring is in order ----------

  lemma {:induction false} WiredChild<T, L>(m: Module<T, L>, n: nat, above: set<SimQueue<T>>)
    requires Tree(m) && Distinct(m) && Wired(m, above) && above !! Owned(m) && 0 < n <= |m.submodules|
    ensures
      var c, up := m.submodules[n - 1], above + QueueSet(m.ownedQueues);
      && Tree(c) && c.height < m.height && Distinct(c) && Wired(c, up) && up !! Owned(c)
      && Owned(c) !! OwnedUpTo(m, n - 1) && OwnedUpTo(m, n) == OwnedUpTo(m, n - 1) + Owned(c)
      && up !! OwnedUpTo(m, n - 1) && OwnedUpTo(m, n) <= Owned(m)
  {
    OwnedGrow(m, n, |m.submodules|);
    OwnedGrow(m, n - 1, n);
  }

  lemma {:induction false} WiredSeesUpTo<T, L>(s: Sight, m: Module<T, L>, n: nat, above: set<SimQueue<T>>)
    requires Tree(m) && Distinct(m) && Wired(m, above) && above !! Owned(m) && n <= |m.submodules|
    ensures SeenUpTo(s, m, n) <= above + QueueSet(m.ownedQueues) + OwnedUpTo(m, n)
    ensures forall k :: 0 <= k < n ==> Ordered(s, m.submodules[k]) && Seen(s, m.submodules[k]) !! OwnedUpTo(m, k)
    decreases m.height, n
  {
    hide Wired, Seen, Owned, OwnedUpTo, Ordered, Distinct, QueueSet;
    if n > 0 {
      WiredChild(m, n, above);
      WiredSeesUpTo(s, m, n - 1, above);
      WiredIsOrdered(s, m.submodules[n - 1], above + QueueSet(m.ownedQueues));
    }
  }

  lemma {:induction false} WiredSight<T, L>(s: Sight, m: Module<T, L>, above: set<SimQueue<T>>)
    requires Tree(m) && Wired(m, above)
    ensures SightSet(s, m) <= above + QueueSet(m.ownedQueues)
    ensures Owned(m) == OwnedUpTo(m, |m.submodules|) + QueueSet(m.ownedQueues)
  {
    forall q | q in SightSet(s, m)
      ensures q in above + QueueSet(m.ownedQueues)
    {
      assert q in m.Ports();
    }
  }

  /** A hierarchically wired tree is in order, and sees only what it owns and what is owned above. */
  lemma {:induction false} WiredIsOrdered<T, L>(s: Sight, m: Module<T, L>, above: set<SimQueue<T>>)
    requires Tree(m) && Distinct(m) && Wired(m, above) && above !! Owned(m)
    ensures Ordered(s, m) && OrderedBelow(s, m) && Seen(s, m) <= above + Owned(m)
    decreases m.height, |m.submodules| + 1
  {
    hide Wired, Owned, Distinct, SightSet;
    WiredSeesUpTo(s, m, |m.submodules|, above);
    WiredSight(s, m, above);
  }
}

/** The boundary between cycles: what a module sees was there when the cycle began. */
module CycleBoundary {
  import opened QueueSpec
  import opened SimQueues
  import opened Scheduler
  import opened SchedulerTheorems
  import opened Wiring

  /** a is b with some elements left out, order kept. */
  ghost predicate Sub<A>(a: seq<A>, b: seq<A>) {
    a == [] || (b != [] && (Sub(a, b[..|b| - 1]) || (a[|a| - 1] == b[|b| - 1] && Sub(a[..|a| - 1], b[..|b| - 1]))))
  }

  lemma {:induction false} SubSelf<A>(a: seq<A>)
    ensures Sub(a, a)
  {
    if a != [] {
      SubSelf(a[..|a| - 1]);
    }
  }

  lemma {:induction false} SubTransitive<A>(a: seq<A>, b: seq<A>, c: seq<A>)
    requires Sub(a, b) && Sub(b, c)
    ensures Sub(a, c)
    decreases |b| + |c|
  {
    if a != [] {
      var a', b', c' := a[..|a| - 1], b[..|b| - 1], c[..|c| - 1];
      if Sub(b, c') {
        SubTransitive(a, b, c');
      } else if Sub(a, b') {
        SubTransitive(a, b', c');
      } else {
        SubTransitive(a', b', c');
      }
    }
  }

  lemma {:induction false} SubTail<A>(a: seq<A>)
    requires a != []
    ensures Sub(a[1..], a)
  {
    if |a| > 1 {
      SubTail(a[..|a| - 1]);
      assert a[1..][..|a[1..]| - 1] == a[..|a| - 1][1..];
    }
  }

  lemma {:induction false} SubFilter<A>(a: seq<A>, keep: A -> bool)
    ensures Sub(Filter(a, keep), a)
  {
    if a != [] {
      SubFilter(a[..|a| - 1], keep);
      var kept := Filter(a, keep);
      if keep(a[|a| - 1]) {
        assert kept[..|kept| - 1] == Filter(a[..|a| - 1], keep);
      } else {
        assert kept == Filter(a[..|a| - 1], keep);
      }
    }
  }

  /** No operation of a `WorkSelf` makes anything visible: it can only take from the readable side. */
  lemma {:induction false} OpsOnlyTake<T>(q: QState<T>, op: Op<T>)
    requires Sound(q) && !op.Work?
    ensures Sub(Apply(q, op).readQ, q.readQ)
  {
    SubSelf(q.readQ);
    match op
    case Read =>
      if q.readQ != [] {
        SubTail(q.readQ);
      }
    case FlushIf(doomed) => SubFilter(q.readQ, Spared(doomed));
    case _ =>
  }

  /** What can be seen of queue q in the second map was already visible in the first. */
  ghost predicate Fades<T>(now: Queues<T>, start: Queues<T>, q: SimQueue<T>) {
    q in now && q in start ==> Sub(now[q].readQ, start[q].readQ)
  }

  lemma {:induction false} FadesTransitive<T>(a: Queues<T>, b: Queues<T>, c: Queues<T>, q: SimQueue<T>)
    requires Fades(a, b, q) && Fades(b, c, q) && a.Keys == b.Keys
    ensures Fades(a, c, q)
  {
    if q in a && q in c {
      SubTransitive(a[q].readQ, b[q].readQ, c[q].readQ);
    }
  }

  lemma {:induction false} PortRunFades<T>(qs: Queues<T>, ports: seq<SimQueue?<T>>, ops: seq<PortOp<T>>, q: SimQueue<T>)
    ensures Fades(PortRun(qs, ports, ops), qs, q)
  {
    if q in qs {
      if ops == [] {
        SubSelf(qs[q].readQ);
      } else {
        var n := |ops| - 1;
        var before := PortRun(qs, ports, ops[..n]);
        PortRunFades(qs, ports, ops[..n], q);
        PortRunKeys(qs, ports, ops[..n]);
        PortApplyFades(before, ports, ops[n], q);
        FadesTransitive(PortApply(before, ports, ops[n]), before, qs, q);
      }
    }
  }

  lemma {:induction false} PortApplyFades<T>(qs: Queues<T>, ports: seq<SimQueue?<T>>, po: PortOp<T>, q: SimQueue<T>)
    ensures Fades(PortApply(qs, ports, po), qs, q)
    ensures PortApply(qs, ports, po).Keys == qs.Keys
  {
    if q in qs {
      SubSelf(qs[q].readQ);
      if !po.op.Work? {
        OpsOnlyTake(qs[q], po.op);
      }
    }
  }

  lemma {:induction false} VisitFades<T, L>(w: World<T, L>, m: Module<T, L>, q: SimQueue<T>)
    requires m in w.ms
    ensures Fades(Visit(w, m).0.qs, w.qs, q)
  {
    PortRunFades(w.qs, m.Ports(), m.workSelf(w.ms[m].local, Views(w, m.Ports())).ops, q);
    PortRunFades(w.qs, m.Ports(), [], q);
  }

  lemma {:induction false} AdvanceLeaves<T, L>(w: World<T, L>, qs: seq<SimQueue<T>>, q: SimQueue<T>)
    requires q !in qs
    ensures q in w.qs ==> AdvanceOwned(w, qs).0.qs.Keys == w.qs.Keys && AdvanceOwned(w, qs).0.qs[q] == w.qs[q]
  {
    if qs != [] {
      assert qs == qs[..|qs| - 1] + [qs[|qs| - 1]];
      AdvanceLeaves(w, qs[..|qs| - 1], q);
    }
  }

  // ---------- What a run saw ----------

  /** Every run in the log is of a module whose ports lie in `seen`, and saw nothing on them that was
      not visible in `start`. */
  ghost predicate SawOnlyOld<T, L>(e: Event<T, L>, start: Queues<T>, seen: set<SimQueue<T>>) {
    e.Ran? ==> forall q: SimQueue<T> :: q in e.m.Ports() ==> q in seen && Fades(e.before, start, q)
  }

  ghost predicate LogSawOnlyOld<T, L>(log: seq<Event<T, L>>, start: Queues<T>, seen: set<SimQueue<T>>) {
    forall i :: 0 <= i < |log| ==> SawOnlyOld(log[i], start, seen)
  }

  /** All events keep the same set of queues in their snapshots. */
  ghost predicate SameKeys<T, L>(log: seq<Event<T, L>>, start: Queues<T>) {
    forall i :: 0 <= i < |log| && log[i].Ran? ==> log[i].before.Keys == start.Keys
  }

  lemma {:induction false} LogFromLater<T, L>(log: seq<Event<T, L>>, mid: Queues<T>, start: Queues<T>,
                                              seen: set<SimQueue<T>>)
    requires LogSawOnlyOld(log, mid, seen) && SameKeys(log, mid) && mid.Keys == start.Keys
    requires forall q :: q in seen ==> Fades(mid, start, q)
    ensures LogSawOnlyOld(log, start, seen) && SameKeys(log, start)
  {
    forall i | 0 <= i < |log|
      ensures SawOnlyOld(log[i], start, seen)
    {
      assert SawOnlyOld(log[i], mid, seen);
      if log[i].Ran? {
        forall q: SimQueue<T> | q in log[i].m.Ports()
          ensures Fades(log[i].before, start, q)
        {
          FadesTransitive(log[i].before, mid, start, q);
        }
      }
    }
  }

  lemma {:induction false} LogWiden<T, L>(log: seq<Event<T, L>>, start: Queues<T>, seen: set<SimQueue<T>>,
                                          more: set<SimQueue<T>>)
    requires LogSawOnlyOld(log, start, seen) && seen <= more
    ensures LogSawOnlyOld(log, start, more)
  {
    forall i | 0 <= i < |log|
      ensures SawOnlyOld(log[i], start, more)
    {
      assert SawOnlyOld(log[i], start, seen);
    }
  }

  lemma {:induction false} LogJoin<T, L>(a: seq<Event<T, L>>, b: seq<Event<T, L>>, start: Queues<T>,
                                         seen: set<SimQueue<T>>)
    requires LogSawOnlyOld(a, start, seen) && SameKeys(a, start)
    requires LogSawOnlyOld(b, start, seen) && SameKeys(b, start)
    ensures LogSawOnlyOld(a + b, start, seen) && SameKeys(a + b, start)
  {
    forall i | 0 <= i < |a + b|
      ensures SawOnlyOld((a + b)[i], start, seen)
    {
      assert i < |a| ==> SawOnlyOld(a[i], start, seen);
      assert i >= |a| ==> SawOnlyOld(b[i - |a|], start, seen);
    }
  }

  ghost predicate Quietly<T>(now: Queues<T>, start: Queues<T>, except: set<SimQueue<T>>) {
    forall q :: q in start && q !in except ==> Fades(now, start, q)
  }

  lemma {:induction false} QuietlyThen<T>(a: Queues<T>, b: Queues<T>, c: Queues<T>, x: set<SimQueue<T>>,
                                          y: set<SimQueue<T>>)
    requires Quietly(b, a, x) && Quietly(c, b, y) && a.Keys == b.Keys == c.Keys
    ensures Quietly(c, a, x + y)
  {
    forall q | q in a && q !in x + y
      ensures Fades(c, a, q)
    {
      FadesTransitive(c, b, a, q);
    }
  }

  lemma {:induction false} QuietlyAt<T>(now: Queues<T>, start: Queues<T>, except: set<SimQueue<T>>,
                                        seen: set<SimQueue<T>>)
    requires Quietly(now, start, except) && seen !! except
    ensures forall q :: q in seen ==> Fades(now, start, q)
  {
  }

  lemma {:induction false} NoEvents<T, L>(w: World<T, L>, m: Module<T, L>, seen: set<SimQueue<T>>)
    requires Tree(m) && Modules(m) <= w.ms.Keys
    ensures
      var r := PlainChildren(w, m, 0);
      LogSawOnlyOld(r.1, w.qs, seen) && SameKeys(r.1, w.qs) && Quietly(r.0.qs, w.qs, OwnedUpTo(m, 0))
  {
    forall q | q in w.qs
      ensures Fades(w.qs, w.qs, q)
    {
      SubSelf(w.qs[q].readQ);
    }
  }

  lemma {:induction false} ChildrenBoundary<T, L>(w: World<T, L>, m: Module<T, L>, n: nat)
    requires Tree(m) && Distinct(m) && Ordered(Bound, m) && n <= |m.submodules| && Modules(m) <= w.ms.Keys
    ensures
      var r := PlainChildren(w, m, n);
      && LogSawOnlyOld(r.1, w.qs, SeenUpTo(Bound, m, n)) && SameKeys(r.1, w.qs)
      && Quietly(r.0.qs, w.qs, OwnedUpTo(m, n))
    decreases m.height, n
  {
    hide *;
    if n == 0 {
      NoEvents(w, m, SeenUpTo(Bound, m, 0));
    } else {
      ChildOf(Bound, m, n);
      PlainChildrenNext(w, m, n - 1);
      ChildrenBoundary(w, m, n - 1);
      var (w1, log1) := PlainChildren(w, m, n - 1);
      var c, seen := m.submodules[n - 1], SeenUpTo(Bound, m, n);
      Boundary(w1, c);
      var (w2, log2) := PlainPass(w1, c);
      QuietlyAt(w1.qs, w.qs, OwnedUpTo(m, n - 1), Seen(Bound, c));
      LogFromLater(log2, w1.qs, w.qs, Seen(Bound, c));
      LogWiden(log2, w.qs, Seen(Bound, c), seen);
      LogWiden(log1, w.qs, SeenUpTo(Bound, m, n - 1), seen);
      LogJoin(log1, log2, w.qs, seen);
      QuietlyThen(w.qs, w1.qs, w2.qs, OwnedUpTo(m, n - 1), Owned(c));
    }
  }

  lemma {:induction false} VisitBoundary<T, L>(w: World<T, L>, m: Module<T, L>)
    requires m in w.ms
    ensures LogSawOnlyOld(Visit(w, m).1, w.qs, SightSet(Bound, m)) && SameKeys(Visit(w, m).1, w.qs)
    ensures Quietly(Visit(w, m).0.qs, w.qs, {})
  {
    forall q | q in w.qs
      ensures Fades(Visit(w, m).0.qs, w.qs, q) && Fades(w.qs, w.qs, q)
    {
      VisitFades(w, m, q);
      SubSelf(w.qs[q].readQ);
    }
  }

  lemma {:induction false} OwnedBoundary<T, L>(w: World<T, L>, m: Module<T, L>, start: Queues<T>,
                                               seen: set<SimQueue<T>>)
    ensures LogSawOnlyOld(AdvanceOwned(w, m.ownedQueues).1, start, seen)
    ensures SameKeys(AdvanceOwned(w, m.ownedQueues).1, start)
    ensures AdvanceOwned(w, m.ownedQueues).0.qs.Keys == w.qs.Keys
    ensures Quietly(AdvanceOwned(w, m.ownedQueues).0.qs, w.qs, QueueSet(m.ownedQueues))
  {
    AdvanceOwnedKeys(w, m.ownedQueues);
    AdvanceOnlyAdvances(w, m.ownedQueues);
    forall q | q in w.qs && q !in QueueSet(m.ownedQueues)
      ensures Fades(AdvanceOwned(w, m.ownedQueues).0.qs, w.qs, q)
    {
      AdvanceLeaves(w, m.ownedQueues, q);
      SubSelf(w.qs[q].readQ);
    }
  }

  lemma {:induction false} AdvanceOnlyAdvances<T, L>(w: World<T, L>, qs: seq<SimQueue<T>>)
    ensures forall i :: 0 <= i < |AdvanceOwned(w, qs).1| ==> AdvanceOwned(w, qs).1[i].Advanced?
  {
    if qs != [] {
      AdvanceOnlyAdvances(w, qs[..|qs| - 1]);
    }
  }

  lemma {:induction false} OwnedParts<T, L>(m: Module<T, L>)
    requires Tree(m)
    ensures {} + OwnedUpTo(m, |m.submodules|) + QueueSet(m.ownedQueues) == Owned(m)
  {
  }

  /** In the plain pass over a subtree in order, no run sees anything on its ports that was not visible
      when the pass began, and outside the queues it owns nothing new becomes visible. */
  lemma {:induction false} Boundary<T, L>(w: World<T, L>, m: Module<T, L>)
    requires Tree(m) && Distinct(m) && Ordered(Bound, m) && Modules(m) <= w.ms.Keys
    ensures
      var r := PlainPass(w, m);
      && LogSawOnlyOld(r.1, w.qs, Seen(Bound, m)) && SameKeys(r.1, w.qs)
      && Quietly(r.0.qs, w.qs, Owned(m))
    decreases m.height, |m.submodules| + 1
  {
    hide *;
    InOwnModules(m);
    var w1, w2 := PlainStages(w, m);
    var n, seen := |m.submodules|, Seen(Bound, m);
    SeenParts(Bound, m);
    OwnedParts(m);
    VisitBoundary(w, m);
    ChildrenBoundary(w1, m, n);
    var log1, log2, log3 := Visit(w, m).1, PlainChildren(w1, m, n).1, AdvanceOwned(w2, m.ownedQueues).1;
    QuietlyAt(w1.qs, w.qs, {}, SeenUpTo(Bound, m, n));
    LogFromLater(log2, w1.qs, w.qs, SeenUpTo(Bound, m, n));
    LogWiden(log1, w.qs, SightSet(Bound, m), seen);
    LogWiden(log2, w.qs, SeenUpTo(Bound, m, n), seen);
    OwnedBoundary(w2, m, w.qs, seen);
    LogJoin(log1, log2, w.qs, seen);
    LogJoin(log1 + log2, log3, w.qs, seen);
    QuietlyThen(w.qs, w1.qs, w2.qs, {}, OwnedUpTo(m, n));
    QuietlyThen(w.qs, w2.qs, AdvanceOwned(w2, m.ownedQueues).0.qs, {} + OwnedUpTo(m, n), QueueSet(m.ownedQueues));
  }
}

/** `Xfer` runs exactly where `Work` ran. */
module WorkXferPairing {
  import opened SimQueues
  import opened Scheduler
  import opened SchedulerTheorems
  import opened Wiring
  import opened CycleBoundary

  /** Active lists exist for every module and name only its children. */
  ghost predicate Built<T, L>(w: World<T, L>) {
    ActiveInside(w) && w.active.Keys == w.ms.Keys
  }

  /** A pass over these modules touched no other module's state or active list. */
  ghost predicate OnlyIn<T, L>(w: World<T, L>, w': World<T, L>, touched: set<Module<T, L>>) {
    && w'.ms.Keys == w.ms.Keys && w'.active.Keys == w.active.Keys
    && (forall x :: x in w.ms && x !in touched ==> w'.ms[x] == w.ms[x])
    && (forall x :: x in w.active && x !in touched ==> w'.active[x] == w.active[x])
  }

  lemma {:induction false} OnlyInThen<T, L>(a: World<T, L>, b: World<T, L>, c: World<T, L>,
                                            x: set<Module<T, L>>, y: set<Module<T, L>>, z: set<Module<T, L>>)
    requires OnlyIn(a, b, x) && OnlyIn(b, c, y) && x + y <= z
    ensures OnlyIn(a, c, z)
  {
  }

  lemma {:induction false} ActivateFrame<T, L>(w: World<T, L>, m: Module<T, L>, a: seq<Module<T, L>>)
    requires Built(w) && m in w.ms && forall k :: 0 <= k < |a| ==> a[k] in m.submodules
    ensures Built(WithActive(w, m, a)) && OnlyIn(w, WithActive(w, m, a), {m})
  {
  }

  lemma {:induction false} StateFrame<T, L>(w: World<T, L>, m: Module<T, L>, s: MState<L>)
    requires Built(w) && m in w.ms
    ensures Built(WithState(w, m, s)) && OnlyIn(w, WithState(w, m, s), {m})
  {
  }

  lemma {:induction false} VisitFrame<T, L>(w: World<T, L>, m: Module<T, L>)
    requires Built(w) && m in w.ms
    ensures Built(Visit(w, m).0) && OnlyIn(w, Visit(w, m).0, {m})
    ensures Visit(w, m).0.active == w.active && Visit(w, m).0.ms[m].ran == HasEvent(w, m)
  {
  }

  lemma {:induction false} OwnedFrame<T, L>(w: World<T, L>, qs: seq<SimQueue<T>>, touched: set<Module<T, L>>)
    requires Built(w)
    ensures Built(AdvanceOwned(w, qs).0) && OnlyIn(w, AdvanceOwned(w, qs).0, touched)
    ensures AdvanceOwned(w, qs).0.ms == w.ms && AdvanceOwned(w, qs).0.active == w.active
  {
    AdvanceOwnedKeys(w, qs);
  }

  /** What the tree says about the modules below child n-1. */
  lemma {:induction false} ChildModules<T, L>(m: Module<T, L>, n: nat)
    requires Tree(m) && Distinct(m) && 0 < n <= |m.submodules|
    ensures
      var c := m.submodules[n - 1];
      && Tree(c) && c.height < m.height && Distinct(c) && c in m.submodules && c in Modules(c)
      && ModulesUpTo(m, n) == ModulesUpTo(m, n - 1) + Modules(c)
      && Modules(c) !! ModulesUpTo(m, n - 1) && m !in ModulesUpTo(m, n)
      && Modules(c) <= Modules(m) && ModulesUpTo(m, n) <= Modules(m) && m in Modules(m)
  {
    InModules(m, n);
    ModulesUpToGrow(m, n, |m.submodules|);
  }

  /** The three stages of each pass. */
  lemma {:induction false} WorkStages<T, L>(w: World<T, L>, m: Module<T, L>) returns (w1: World<T, L>, w2: World<T, L>)
    requires Tree(m) && Modules(m) <= w.ms.Keys
    ensures m in w.ms && w1 == Visit(WithActive(w, m, []), m).0 && w1.ms.Keys == w.ms.Keys && m in w1.active
    ensures w2 == Children(w1, m, |m.submodules|).0
    ensures WorkPass(w, m).0 == AdvanceOwned(w2, m.ownedQueues).0
    ensures WorkPass(w, m).1 == Visit(WithActive(w, m, []), m).1 + Children(w1, m, |m.submodules|).1
                                + AdvanceOwned(w2, m.ownedQueues).1
  {
    w1 := Visit(WithActive(w, m, []), m).0;
    w2 := Children(w1, m, |m.submodules|).0;
  }

  lemma {:induction false} IdleStages<T, L>(w: World<T, L>, m: Module<T, L>) returns (w1: World<T, L>, w2: World<T, L>)
    requires Tree(m) && Modules(m) <= w.ms.Keys
    ensures m in w.ms && w1 == WithActive(WithState(w, m, w.ms[m].(ran := false)), m, [])
    ensures w1.ms.Keys == w.ms.Keys && m in w1.active
    ensures w2 == Children(w1, m, |m.submodules|).0
    ensures IdlePass(w, m).0 == AdvanceOwned(w2, m.ownedQueues).0
    ensures IdlePass(w, m).1 == Children(w1, m, |m.submodules|).1 + AdvanceOwned(w2, m.ownedQueues).1
  {
    w1 := WithActive(WithState(w, m, w.ms[m].(ran := false)), m, []);
    w2 := Children(w1, m, |m.submodules|).0;
  }

  lemma {:induction false} NoChildrenFrame<T, L>(w: World<T, L>, m: Module<T, L>)
    requires Tree(m) && Modules(m) <= w.ms.Keys && m in w.active
    ensures Children(w, m, 0) == (w, []) && OnlyIn(w, w, ModulesUpTo(m, 0) + {m})
  {
  }

  lemma {:induction false} ChildrenFrame<T, L>(w: World<T, L>, m: Module<T, L>, n: nat)
    requires Tree(m) && Distinct(m) && n <= |m.submodules| && Modules(m) <= w.ms.Keys && Built(w) && m in w.active
    ensures Built(Children(w, m, n).0) && OnlyIn(w, Children(w, m, n).0, ModulesUpTo(m, n) + {m})
    ensures Children(w, m, n).0.ms[m] == w.ms[m]
    decreases m.height, n + 1
  {
    hide *;
    InOwnModules(m);
    if n == 0 {
      NoChildrenFrame(w, m);
    } else {
      ChildModules(m, n);
      ChildrenNext(w, m, n - 1);
      ChildrenFrame(w, m, n - 1);
      var w1 := Children(w, m, n - 1).0;
      ChildTurnFrame(w1, m, n - 1);
      OnlyInThen(w, w1, Children(w, m, n).0, ModulesUpTo(m, n - 1) + {m}, Modules(m.submodules[n - 1]) + {m},
                 ModulesUpTo(m, n) + {m});
    }
  }

  lemma {:induction false} ChildTurnFrame<T, L>(w: World<T, L>, m: Module<T, L>, k: nat)
    requires Tree(m) && Distinct(m) && k < |m.submodules| && Modules(m) <= w.ms.Keys && Built(w) && m in w.active
    requires Modules(m.submodules[k]) <= w.ms.Keys
    ensures
      var c, w' := m.submodules[k], ChildTurn(w, m, k).0;
      && Built(w') && OnlyIn(w, w', Modules(c) + {m}) && w'.ms[m] == w.ms[m]
      && w'.active[m] == w.active[m] + if Pending(w, c) then [c] else []
    decreases m.height, 0
  {
    var c := m.submodules[k];
    ChildModules(m, k + 1);
    assert forall j :: 0 <= j < |w.active[m]| ==> w.active[m][j] in m.submodules;
    if Pending(w, c) {
      var w0 := WithActive(w, m, w.active[m] + [c]);
      ActivateFrame(w, m, w.active[m] + [c]);
      WorkFrame(w0, c);
    } else {
      IdleFrame(w, c);
    }
  }

  lemma {:induction false} WorkFrame<T, L>(w: World<T, L>, m: Module<T, L>)
    requires Tree(m) && Distinct(m) && Modules(m) <= w.ms.Keys && Built(w)
    ensures Built(WorkPass(w, m).0) && OnlyIn(w, WorkPass(w, m).0, Modules(m))
    decreases m.height, |m.submodules| + 2
  {
    hide *;
    ModulesParts(m);
    var w1, w2 := WorkStages(w, m);
    ActivateFrame(w, m, []);
    VisitFrame(WithActive(w, m, []), m);
    ChildrenFrame(w1, m, |m.submodules|);
    OwnedFrame(w2, m.ownedQueues, Modules(m));
    OnlyInThen(w, WithActive(w, m, []), w1, {m}, {m}, Modules(m));
    OnlyInThen(w, w1, w2, Modules(m), ModulesUpTo(m, |m.submodules|) + {m}, Modules(m));
    OnlyInThen(w, w2, WorkPass(w, m).0, Modules(m), Modules(m), Modules(m));
  }

  lemma {:induction false} IdleFrame<T, L>(w: World<T, L>, m: Module<T, L>)
    requires Tree(m) && Distinct(m) && Modules(m) <= w.ms.Keys && Built(w)
    ensures Built(IdlePass(w, m).0) && OnlyIn(w, IdlePass(w, m).0, Modules(m))
    decreases m.height, |m.submodules| + 2
  {
    hide *;
    ModulesParts(m);
    var w1, w2 := IdleStages(w, m);
    var w0 := WithState(w, m, w.ms[m].(ran := false));
    StateFrame(w, m, w.ms[m].(ran := false));
    ActivateFrame(w0, m, []);
    ChildrenFrame(w1, m, |m.submodules|);
    OwnedFrame(w2, m.ownedQueues, Modules(m));
    OnlyInThen(w, w0, w1, {m}, {m}, Modules(m));
    OnlyInThen(w, w1, w2, Modules(m), ModulesUpTo(m, |m.submodules|) + {m}, Modules(m));
    OnlyInThen(w, w2, IdlePass(w, m).0, Modules(m), Modules(m), Modules(m));
  }

  lemma {:induction false} ModulesParts<T, L>(m: Module<T, L>)
    requires Tree(m)
    ensures Modules(m) == {m} + ModulesUpTo(m, |m.submodules|) && m in Modules(m)
  {
  }

  // ---------- What Xfer depends on ----------

  /** The two worlds agree, below m, on who ran and on the active lists. */
  ghost predicate SameRuns<T, L>(w1: World<T, L>, w2: World<T, L>, ms: set<Module<T, L>>) {
    forall x :: x in ms ==>
      && x in w1.ms && x in w2.ms && w1.ms[x].ran == w2.ms[x].ran
      && x in w1.active && x in w2.active && w1.active[x] == w2.active[x]
  }

  lemma {:induction false} XferTurnKeepsRuns<T, L>(w: World<T, L>, m: Module<T, L>)
    requires Built(w) && m in w.ms
    ensures Built(XferTurn(w, m).0) && SameRuns(w, XferTurn(w, m).0, w.ms.Keys)
    ensures XferTurn(w, m).0.active == w.active && XferTurn(w, m).0.ms.Keys == w.ms.Keys
  {
  }

  lemma {:induction false} SameRunsThen<T, L>(a: World<T, L>, b: World<T, L>, c: World<T, L>, ms: set<Module<T, L>>)
    requires SameRuns(a, b, ms) && SameRuns(b, c, ms)
    ensures SameRuns(a, c, ms)
  {
  }

  lemma {:induction false} SameRunsPart<T, L>(a: World<T, L>, b: World<T, L>, ms: set<Module<T, L>>,
                                              less: set<Module<T, L>>)
    requires SameRuns(a, b, ms) && less <= ms
    ensures SameRuns(a, b, less) && SameRuns(b, a, less)
  {
  }

  lemma {:induction false} XferUpToNext<T, L>(w: World<T, L>, m: Module<T, L>, n: nat)
    requires Tree(m) && Modules(m) <= w.ms.Keys && Built(w) && m in w.active && 0 < n <= |w.active[m]|
    ensures
      var a := w.active[m][n - 1];
      && Tree(a) && a.height < m.height && Modules(a) <= Modules(m) && a in w.active
      && a in m.submodules && Built(XferUpTo(w, m, n - 1).0)
      && XferUpTo(w, m, n).0 == XferPass(XferUpTo(w, m, n - 1).0, a).0
      && XferUpTo(w, m, n).1 == XferUpTo(w, m, n - 1).1 + XferPass(XferUpTo(w, m, n - 1).0, a).1
  {
    ActiveChild(w, m, n - 1);
    InOwnModules(w.active[m][n - 1]);
  }

  lemma {:induction false} XferStages<T, L>(w: World<T, L>, m: Module<T, L>) returns (w1: World<T, L>)
    requires Tree(m) && Modules(m) <= w.ms.Keys && Built(w) && m in w.active
    ensures w1 == XferTurn(w, m).0 && Built(w1) && w1.active == w.active && w1.ms.Keys == w.ms.Keys
    ensures XferPass(w, m).0 == XferUpTo(w1, m, |w.active[m]|).0
    ensures XferPass(w, m).1 == XferTurn(w, m).1 + XferUpTo(w1, m, |w.active[m]|).1
  {
    w1 := XferTurn(w, m).0;
  }

  lemma {:induction false} NoXfer<T, L>(w: World<T, L>, m: Module<T, L>)
    requires Tree(m) && Modules(m) <= w.ms.Keys && Built(w) && m in w.active
    ensures XferUpTo(w, m, 0) == (w, []) && SameRuns(w, w, w.ms.Keys)
  {
  }

  lemma {:induction false} XferUpToKeepsRuns<T, L>(w: World<T, L>, m: Module<T, L>, n: nat)
    requires Tree(m) && Modules(m) <= w.ms.Keys && Built(w) && m in w.active && n <= |w.active[m]|
    ensures SameRuns(w, XferUpTo(w, m, n).0, w.ms.Keys)
    decreases m.height, n
  {
    hide *;
    BuiltFacts(w);
    if n == 0 {
      NoXfer(w, m);
    } else {
      XferUpToNext(w, m, n);
      XferUpToKeepsRuns(w, m, n - 1);
      var w1 := XferUpTo(w, m, n - 1).0;
      XferKeepsRuns(w1, w.active[m][n - 1]);
      SameRunsThen(w, w1, XferUpTo(w, m, n).0, w.ms.Keys);
    }
  }

  lemma {:induction false} BuiltFacts<T, L>(w: World<T, L>)
    requires Built(w)
    ensures ActiveInside(w) && w.active.Keys == w.ms.Keys
  {
  }

  /** `Xfer` itself changes neither who ran nor any active list. */
  lemma {:induction false} XferKeepsRuns<T, L>(w: World<T, L>, m: Module<T, L>)
    requires Tree(m) && Modules(m) <= w.ms.Keys && Built(w) && m in w.active
    ensures SameRuns(w, XferPass(w, m).0, w.ms.Keys)
    decreases m.height, |w.active[m]| + 1
  {
    hide *;
    BuiltFacts(w);
    var w1 := XferStages(w, m);
    XferTurnKeepsRuns(w, m);
    XferUpToKeepsRuns(w1, m, |w.active[m]|);
    SameRunsThen(w, w1, XferPass(w, m).0, w.ms.Keys);
  }

  lemma {:induction false} XferUpToDepends<T, L>(w1: World<T, L>, w2: World<T, L>, m: Module<T, L>, n: nat,
                                                 ms: set<Module<T, L>>)
    requires Tree(m) && Modules(m) <= w1.ms.Keys && Modules(m) <= w2.ms.Keys && Built(w1) && Built(w2)
    requires m in w1.active && m in w2.active && n <= |w1.active[m]| && n <= |w2.active[m]|
    requires w1.active[m][..n] == w2.active[m][..n] && SameRuns(w1, w2, ms)
    requires forall k :: 0 <= k < n ==> BelowIn(w1.active[m][k], ms)
    ensures Calls(XferUpTo(w1, m, n).1) == Calls(XferUpTo(w2, m, n).1)
    decreases m.height, n
  {
    hide *;
    BuiltFacts(w1);
    BuiltFacts(w2);
    if n == 0 {
      NoXfer(w1, m);
      NoXfer(w2, m);
    } else {
      XferUpToNext(w1, m, n);
      XferUpToNext(w2, m, n);
      assert w1.active[m][..n][n - 1] == w2.active[m][..n][n - 1];
      assert w1.active[m][..n][..n - 1] == w1.active[m][..n - 1];
      assert w2.active[m][..n][..n - 1] == w2.active[m][..n - 1];
      XferUpToDepends(w1, w2, m, n - 1, ms);
      var a, v1, v2 := w1.active[m][n - 1], XferUpTo(w1, m, n - 1).0, XferUpTo(w2, m, n - 1).0;
      BelowInModules(a, ms);
      XferUpToKeepsRuns(w1, m, n - 1);
      XferUpToKeepsRuns(w2, m, n - 1);
      SameRunsPart(w1, v1, w1.ms.Keys, Modules(a));
      SameRunsPart(w2, v2, w2.ms.Keys, Modules(a));
      SameRunsPart(w1, w2, ms, Modules(a));
      SameRunsThen(v1, w1, w2, Modules(a));
      SameRunsThen(v1, w2, v2, Modules(a));
      XferDepends(v1, v2, a);
      LogSplit(XferUpTo(w1, m, n - 1).1, XferPass(v1, a).1);
      LogSplit(XferUpTo(w2, m, n - 1).1, XferPass(v2, a).1);
    }
  }

  ghost predicate BelowIn<T, L>(a: Module<T, L>, ms: set<Module<T, L>>) {
    Tree(a) && Modules(a) <= ms
  }

  lemma {:induction false} BelowInModules<T, L>(a: Module<T, L>, ms: set<Module<T, L>>)
    requires BelowIn(a, ms)
    ensures Tree(a) && Modules(a) <= ms
  {
  }

  /** Which `XferSelf` calls a subtree makes depends only on who ran and the active lists there. */
  lemma {:induction false} XferDepends<T, L>(w1: World<T, L>, w2: World<T, L>, m: Module<T, L>)
    requires Tree(m) && Modules(m) <= w1.ms.Keys && Modules(m) <= w2.ms.Keys && Built(w1) && Built(w2)
    requires m in w1.active && m in w2.active && SameRuns(w1, w2, Modules(m))
    ensures Calls(XferPass(w1, m).1) == Calls(XferPass(w2, m).1)
    decreases m.height, |w1.active[m]| + 1
  {
    hide *;
    BuiltFacts(w1);
    BuiltFacts(w2);
    InOwnModules(m);
    var v1 := XferStages(w1, m);
    var v2 := XferStages(w2, m);
    XferTurnKeepsRuns(w1, m);
    XferTurnKeepsRuns(w2, m);
    SameRunsPart(w1, v1, w1.ms.Keys, Modules(m));
    SameRunsPart(w2, v2, w2.ms.Keys, Modules(m));
    SameRunsThen(v1, w1, w2, Modules(m));
    SameRunsThen(v1, w2, v2, Modules(m));
    SameRunsAt(w1, w2, Modules(m), m);
    ActiveBelow(w1, m);
    XferUpToDepends(v1, v2, m, |w1.active[m]|, Modules(m));
    LogSplit(XferTurn(w1, m).1, XferUpTo(v1, m, |w1.active[m]|).1);
    LogSplit(XferTurn(w2, m).1, XferUpTo(v2, m, |w1.active[m]|).1);
  }

  lemma {:induction false} SameRunsAt<T, L>(w1: World<T, L>, w2: World<T, L>, ms: set<Module<T, L>>, m: Module<T, L>)
    requires SameRuns(w1, w2, ms) && m in ms && m in w1.ms && m in w2.ms && m in w1.active && m in w2.active
    ensures w1.active[m] == w2.active[m] && Calls(XferTurn(w1, m).1) == Calls(XferTurn(w2, m).1)
  {
  }

  lemma {:induction false} ActiveBelow<T, L>(w: World<T, L>, m: Module<T, L>)
    requires Tree(m) && Built(w) && m in w.active
    ensures forall k :: 0 <= k < |w.active[m]| ==> BelowIn(w.active[m][k], Modules(m))
  {
    forall k | 0 <= k < |w.active[m]|
      ensures BelowIn(w.active[m][k], Modules(m))
    {
      ActiveChild(w, m, k);
    }
  }

  // ---------- A subtree with nothing pending stays quiet ----------

  /** The two worlds agree on these modules' states and these queues. */
  ghost predicate SameAt<T, L>(w1: World<T, L>, w2: World<T, L>, ms: set<Module<T, L>>, qs: set<SimQueue<T>>) {
    && (forall x :: x in ms ==> x in w1.ms && x in w2.ms && w1.ms[x] == w2.ms[x])
    && (forall q :: q in qs ==> Q(w1, q) == Q(w2, q))
  }

  lemma {:induction false} HasEventDepends<T, L>(w1: World<T, L>, w2: World<T, L>, m: Module<T, L>)
    requires Tree(m) && m in w1.ms && m in w2.ms && SameAt(w1, w2, Modules(m), Seen(Watched, m))
    ensures HasEvent(w1, m) == HasEvent(w2, m)
  {
    forall q: SimQueue<T> | q in m.inputs || q in m.inners
      ensures Q(w1, q) == Q(w2, q)
    {
      assert q in SightSet(Watched, m);
    }
    assert Epochs(w1, m.inputs) == Epochs(w2, m.inputs);
    assert Epochs(w1, m.inners) == Epochs(w2, m.inners);
    InOwnModules(m);
  }

  lemma {:induction false} SameAtPart<T, L>(w1: World<T, L>, w2: World<T, L>, ms: set<Module<T, L>>,
                                            qs: set<SimQueue<T>>,
                                            ms': set<Module<T, L>>, qs': set<SimQueue<T>>)
    requires SameAt(w1, w2, ms, qs) && ms' <= ms && qs' <= qs
    ensures SameAt(w1, w2, ms', qs')
  {
  }

  lemma {:induction false} ChildSees<T, L>(m: Module<T, L>, n: nat)
    requires Tree(m) && 0 < n <= |m.submodules|
    ensures
      var c := m.submodules[n - 1];
      Tree(c) && c.height < m.height && Modules(c) <= Modules(m) && Seen(Watched, c) <= Seen(Watched, m)
  {
    InModules(m, n);
    SeenGrow(Watched, m, n, |m.submodules|);
  }

  lemma {:induction false} PendingUpToNext<T, L>(w: World<T, L>, m: Module<T, L>, n: nat)
    requires Tree(m) && n <= |m.submodules| && Modules(m) <= w.ms.Keys
    ensures ModulesUpTo(m, n) <= w.ms.Keys
    ensures n == 0 ==> !PendingUpTo(w, m, n)
    ensures n > 0 ==> ModulesUpTo(m, n - 1) <= w.ms.Keys && Tree(m.submodules[n - 1])
                      && Modules(m.submodules[n - 1]) <= w.ms.Keys
    ensures n > 0 ==> PendingUpTo(w, m, n) == (PendingUpTo(w, m, n - 1) || Pending(w, m.submodules[n - 1]))
  {
    ModulesUpToGrow(m, n, |m.submodules|);
  }

  lemma {:induction false} PendingUpToDepends<T, L>(w1: World<T, L>, w2: World<T, L>, m: Module<T, L>, n: nat)
    requires Tree(m) && n <= |m.submodules| && Modules(m) <= w1.ms.Keys && Modules(m) <= w2.ms.Keys
    requires ModulesUpTo(m, n) <= w1.ms.Keys && ModulesUpTo(m, n) <= w2.ms.Keys
    requires SameAt(w1, w2, Modules(m), Seen(Watched, m))
    ensures PendingUpTo(w1, m, n) == PendingUpTo(w2, m, n)
    decreases m.height, n
  {
    hide *;
    PendingUpToNext(w1, m, n);
    PendingUpToNext(w2, m, n);
    if n > 0 {
      ChildSees(m, n);
      PendingUpToDepends(w1, w2, m, n - 1);
      var c := m.submodules[n - 1];
      SameAtPart(w1, w2, Modules(m), Seen(Watched, m), Modules(c), Seen(Watched, c));
      PendingDepends(w1, w2, c);
    }
  }

  lemma {:induction false} PendingParts<T, L>(w: World<T, L>, m: Module<T, L>)
    requires Tree(m) && Modules(m) <= w.ms.Keys
    ensures m in w.ms && ModulesUpTo(m, |m.submodules|) <= w.ms.Keys
    ensures Pending(w, m) == (HasEvent(w, m) || PendingUpTo(w, m, |m.submodules|))
  {
  }

  /** Whether a subtree is pending depends only on its modules and the queues they watch. */
  lemma {:induction false} PendingDepends<T, L>(w1: World<T, L>, w2: World<T, L>, m: Module<T, L>)
    requires Tree(m) && Modules(m) <= w1.ms.Keys && Modules(m) <= w2.ms.Keys
    requires SameAt(w1, w2, Modules(m), Seen(Watched, m))
    ensures Pending(w1, m) == Pending(w2, m)
    decreases m.height, |m.submodules| + 1
  {
    hide *;
    PendingParts(w1, m);
    PendingParts(w2, m);
    HasEventDepends(w1, w2, m);
    PendingUpToDepends(w1, w2, m, |m.submodules|);
  }

  /** Only these queues moved. */
  ghost predicate Moved<T, L>(w: World<T, L>, w': World<T, L>, moved: set<SimQueue<T>>) {
    w.qs.Keys == w'.qs.Keys && forall q :: q in w.qs && q !in moved ==> w.qs[q] == w'.qs[q]
  }

  /** No call was made and only these queues moved. */
  ghost predicate Silent<T, L>(w: World<T, L>, r: (World<T, L>, seq<Event<T, L>>), moved: set<SimQueue<T>>) {
    Calls(r.1) == [] && Moved(w, r.0, moved)
  }

  lemma {:induction false} IdleChild<T, L>(w: World<T, L>, m: Module<T, L>, n: nat, total: nat)
    requires Tree(m) && 0 < n <= total <= |m.submodules| && Modules(m) <= w.ms.Keys
    requires ModulesUpTo(m, total) <= w.ms.Keys && !PendingUpTo(w, m, total)
    ensures Tree(m.submodules[n - 1]) && Modules(m.submodules[n - 1]) <= w.ms.Keys && !Pending(w, m.submodules[n - 1])
    decreases total
  {
    hide *;
    PendingUpToNext(w, m, total);
    if n < total {
      IdleChild(w, m, n, total - 1);
    }
  }

  lemma {:induction false} NoneSilent<T, L>(w: World<T, L>, m: Module<T, L>)
    requires Tree(m) && Modules(m) <= w.ms.Keys && m in w.active
    ensures Silent(w, Children(w, m, 0), OwnedUpTo(m, 0))
  {
  }

  lemma {:induction false} SilentThen<T, L>(a: World<T, L>, r1: (World<T, L>, seq<Event<T, L>>),
                                            r2: (World<T, L>, seq<Event<T, L>>),
                                            x: set<SimQueue<T>>, y: set<SimQueue<T>>)
    requires Silent(a, r1, x) && Silent(r1.0, r2, y)
    ensures Silent(a, (r2.0, r1.1 + r2.1), x + y)
  {
    LogSplit(r1.1, r2.1);
  }

  /** Frames seen from one child: its modules and what they can see are untouched so far. */
  lemma {:induction false} Untouched<T, L>(w: World<T, L>, w': World<T, L>, touched: set<Module<T, L>>,
                                           moved: set<SimQueue<T>>,
                                           ms: set<Module<T, L>>, qs: set<SimQueue<T>>)
    requires OnlyIn(w, w', touched) && touched !! ms && ms <= w.ms.Keys
    requires Moved(w, w', moved) && moved !! qs
    ensures SameAt(w, w', ms, qs)
  {
  }

  lemma {:induction false} SilentMoves<T, L>(w: World<T, L>, r: (World<T, L>, seq<Event<T, L>>),
                                             moved: set<SimQueue<T>>)
    requires Silent(w, r, moved)
    ensures Moved(w, r.0, moved)
  {
  }

  lemma {:induction false} QuietChildren<T, L>(w: World<T, L>, m: Module<T, L>, n: nat)
    requires Tree(m) && Distinct(m) && Ordered(Watched, m) && n <= |m.submodules|
    requires Modules(m) <= w.ms.Keys && Built(w) && m in w.active
    requires ModulesUpTo(m, |m.submodules|) <= w.ms.Keys && !PendingUpTo(w, m, |m.submodules|)
    ensures Silent(w, Children(w, m, n), OwnedUpTo(m, n))
    decreases m.height, n + 1
  {
    hide *;
    if n == 0 {
      NoneSilent(w, m);
    } else {
      ChildModules(m, n);
      ChildOf(Watched, m, n);
      ChildrenNext(w, m, n - 1);
      QuietChildren(w, m, n - 1);
      ChildrenFrame(w, m, n - 1);
      IdleChild(w, m, n, |m.submodules|);
      var r1, c := Children(w, m, n - 1), m.submodules[n - 1];
      SilentMoves(w, r1, OwnedUpTo(m, n - 1));
      Untouched(w, r1.0, ModulesUpTo(m, n - 1) + {m}, OwnedUpTo(m, n - 1), Modules(c), Seen(Watched, c));
      PendingDepends(w, r1.0, c);
      QuietTurn(r1.0, m, n - 1);
      Quiet(r1.0, c);
      SilentThen(w, r1, IdlePass(r1.0, c), OwnedUpTo(m, n - 1), Owned(c));
    }
  }

  lemma {:induction false} QuietTurn<T, L>(w: World<T, L>, m: Module<T, L>, k: nat)
    requires Tree(m) && k < |m.submodules| && Modules(m.submodules[k]) <= w.ms.Keys && m in w.active
    requires !Pending(w, m.submodules[k])
    ensures ChildTurn(w, m, k) == IdlePass(w, m.submodules[k])
  {
  }

  lemma {:induction false} ClearedSame<T, L>(w: World<T, L>, m: Module<T, L>)
    requires Tree(m) && Distinct(m) && Modules(m) <= w.ms.Keys && Built(w) && m in w.ms
    ensures
      var w1 := WithActive(WithState(w, m, w.ms[m].(ran := false)), m, []);
      && Built(w1) && w1.qs == w.qs && Silent(w, (w1, []), {})
  {
    StateFrame(w, m, w.ms[m].(ran := false));
    ActivateFrame(WithState(w, m, w.ms[m].(ran := false)), m, []);
  }

  lemma {:induction false} ChildPendingSame<T, L>(w: World<T, L>, m: Module<T, L>, n: nat)
    requires Tree(m) && Distinct(m) && Modules(m) <= w.ms.Keys && m in w.ms && Built(w)
    requires n <= |m.submodules| && ModulesUpTo(m, n) <= w.ms.Keys
    ensures
      var w1 := WithActive(WithState(w, m, w.ms[m].(ran := false)), m, []);
      PendingUpTo(w1, m, n) == PendingUpTo(w, m, n)
  {
    hide *;
    var w1 := WithActive(WithState(w, m, w.ms[m].(ran := false)), m, []);
    ClearedKeys(w, m);
    PendingUpToNext(w, m, n);
    PendingUpToNext(w1, m, n);
    if n > 0 {
      ChildPendingSame(w, m, n - 1);
      ChildSees(m, n);
      var c := m.submodules[n - 1];
      ClearedBelow(w, m, n, Seen(Watched, c));
      PendingDepends(w, w1, c);
    }
  }

  lemma {:induction false} ClearedKeys<T, L>(w: World<T, L>, m: Module<T, L>)
    requires m in w.ms
    ensures WithActive(WithState(w, m, w.ms[m].(ran := false)), m, []).ms.Keys == w.ms.Keys
  {
  }

  lemma {:induction false} ClearedBelow<T, L>(w: World<T, L>, m: Module<T, L>, n: nat, qs: set<SimQueue<T>>)
    requires Tree(m) && Distinct(m) && Modules(m) <= w.ms.Keys && m in w.ms && 0 < n <= |m.submodules| && Built(w)
    ensures
      var w1 := WithActive(WithState(w, m, w.ms[m].(ran := false)), m, []);
      SameAt(w, w1, Modules(m.submodules[n - 1]), qs)
  {
    var w0 := WithState(w, m, w.ms[m].(ran := false));
    var w1 := WithActive(w0, m, []);
    assert w1.qs == w.qs;
    StateFrame(w, m, w.ms[m].(ran := false));
    ActivateFrame(w0, m, []);
    NothingMoved(w, w1);
    hide *;
    ChildModules(m, n);
    OnlyInThen(w, w0, w1, {m}, {m}, {m});
    Untouched(w, w1, {m}, {}, Modules(m.submodules[n - 1]), qs);
  }

  lemma {:induction false} NothingMoved<T, L>(w: World<T, L>, w1: World<T, L>)
    requires w1.qs == w.qs
    ensures Moved(w, w1, {})
  {
  }

  lemma {:induction false} OwnedSilent<T, L>(w: World<T, L>, qs: seq<SimQueue<T>>)
    ensures Silent(w, AdvanceOwned(w, qs), QueueSet(qs))
  {
    AdvanceOwnedLog(w, qs);
    AdvanceOwnedKeys(w, qs);
    forall q | q in w.qs && q !in QueueSet(qs)
      ensures w.qs[q] == AdvanceOwned(w, qs).0.qs[q]
    {
      AdvanceLeaves(w, qs, q);
    }
  }

  /** Skipping a subtree in order with nothing pending runs no `WorkSelf` anywhere in it. */
  lemma {:induction false} Quiet<T, L>(w: World<T, L>, m: Module<T, L>)
    requires Tree(m) && Distinct(m) && Ordered(Watched, m)
    requires Modules(m) <= w.ms.Keys && Built(w) && !Pending(w, m)
    ensures Silent(w, IdlePass(w, m), Owned(m))
    decreases m.height, |m.submodules| + 2
  {
    hide *;
    PendingParts(w, m);
    var n := |m.submodules|;
    var w1, w2 := IdleStages(w, m);
    ClearedSame(w, m);
    ChildPendingSame(w, m, n);
    QuietChildren(w1, m, n);
    OwnedSilent(w2, m.ownedQueues);
    OwnedParts(m);
    var r2 := Children(w1, m, n);
    SilentThen(w, (w1, []), r2, {}, OwnedUpTo(m, n));
    assert [] + r2.1 == r2.1;
    SilentThen(w, (w2, r2.1), AdvanceOwned(w2, m.ownedQueues), {} + OwnedUpTo(m, n), QueueSet(m.ownedQueues));
  }

  // ---------- Pairing ----------

  /** The calls an Xfer over m's active children would make are the calls in this log. */
  ghost predicate ChildrenPaired<T, L>(w: World<T, L>, m: Module<T, L>, log: seq<Event<T, L>>, below: set<Module<T, L>>)
    requires Tree(m) && Modules(m) <= w.ms.Keys && Built(w) && m in w.active
  {
    && Calls(XferUpTo(w, m, |w.active[m]|).1) == Calls(log)
    && forall k :: 0 <= k < |w.active[m]| ==> BelowIn(w.active[m][k], below)
  }

  lemma {:induction false} NothingPaired<T, L>(w: World<T, L>, m: Module<T, L>)
    requires Tree(m) && Modules(m) <= w.ms.Keys && Built(w) && m in w.active && w.active[m] == []
    ensures Children(w, m, 0) == (w, []) && ChildrenPaired(w, m, [], ModulesUpTo(m, 0))
  {
  }

  lemma {:induction false} OutsideSameRuns<T, L>(w: World<T, L>, w': World<T, L>, touched: set<Module<T, L>>,
                                                 ms: set<Module<T, L>>)
    requires OnlyIn(w, w', touched) && touched !! ms && ms <= w.ms.Keys && Built(w)
    ensures SameRuns(w, w', ms)
  {
  }

  lemma {:induction false} StillPaired<T, L>(w1: World<T, L>, w2: World<T, L>, m: Module<T, L>, log: seq<Event<T, L>>,
                                             below: set<Module<T, L>>, n: nat)
    requires Tree(m) && Modules(m) <= w1.ms.Keys && Modules(m) <= w2.ms.Keys && Built(w1) && Built(w2)
    requires m in w1.active && m in w2.active && ChildrenPaired(w1, m, log, below) && SameRuns(w1, w2, below)
    requires n == |w1.active[m]| <= |w2.active[m]| && w2.active[m][..n] == w1.active[m]
    ensures Calls(XferUpTo(w2, m, n).1) == Calls(log)
    ensures forall k :: 0 <= k < n ==> BelowIn(w2.active[m][k], below)
  {
    assert w1.active[m][..n] == w1.active[m];
    assert forall k :: 0 <= k < n ==> w2.active[m][k] == w2.active[m][..n][k];
    XferUpToDepends(w1, w2, m, n, below);
  }

  lemma {:induction false} AddPaired<T, L>(w: World<T, L>, m: Module<T, L>, c: Module<T, L>, log1: seq<Event<T, L>>,
                                           log2: seq<Event<T, L>>,
                                           n: nat, below: set<Module<T, L>>, below': set<Module<T, L>>)
    requires Tree(m) && Modules(m) <= w.ms.Keys && Built(w) && m in w.active
    requires |w.active[m]| == n + 1 && w.active[m][n] == c && BelowIn(c, below') && below <= below' && c in w.active
    requires Modules(c) <= w.ms.Keys
    requires Calls(XferUpTo(w, m, n).1) == Calls(log1) && Calls(XferPass(w, c).1) == Calls(log2)
    requires forall k :: 0 <= k < n ==> BelowIn(w.active[m][k], below)
    ensures ChildrenPaired(w, m, log1 + log2, below')
  {
    hide *;
    BuiltFacts(w);
    XferUpToNext(w, m, n + 1);
    XferUpToKeepsRuns(w, m, n);
    XferKeepsWorld(w, m, n);
    var v := XferUpTo(w, m, n).0;
    SameRunsPart(w, v, w.ms.Keys, Modules(c));
    XferDepends(v, w, c);
    LogSplit(XferUpTo(w, m, n).1, XferPass(v, c).1);
    LogSplit(log1, log2);
    AllBelow(w.active[m], n, below, below');
    BeginPaired(w, m, log1 + log2, below');
  }

  lemma {:induction false} XferKeepsWorld<T, L>(w: World<T, L>, m: Module<T, L>, n: nat)
    requires Tree(m) && Modules(m) <= w.ms.Keys && Built(w) && m in w.active && n <= |w.active[m]|
    ensures XferUpTo(w, m, n).0.active == w.active && XferUpTo(w, m, n).0.ms.Keys == w.ms.Keys
  {
  }

  lemma {:induction false} AllBelow<T, L>(a: seq<Module<T, L>>, n: nat, below: set<Module<T, L>>,
                                          below': set<Module<T, L>>)
    requires |a| == n + 1 && BelowIn(a[n], below') && below <= below'
    requires forall k :: 0 <= k < n ==> BelowIn(a[k], below)
    ensures forall k :: 0 <= k < |a| ==> BelowIn(a[k], below')
  {
  }

  lemma {:induction false} BeginPaired<T, L>(w: World<T, L>, m: Module<T, L>, log: seq<Event<T, L>>,
                                             below: set<Module<T, L>>)
    requires Tree(m) && Modules(m) <= w.ms.Keys && Built(w) && m in w.active
    requires Calls(XferUpTo(w, m, |w.active[m]|).1) == Calls(log)
    requires forall k :: 0 <= k < |w.active[m]| ==> BelowIn(w.active[m][k], below)
    ensures ChildrenPaired(w, m, log, below)
  {
  }

  lemma {:induction false} SkipPaired<T, L>(w: World<T, L>, m: Module<T, L>, log1: seq<Event<T, L>>,
                                            log2: seq<Event<T, L>>,
                                            below: set<Module<T, L>>, below': set<Module<T, L>>)
    requires Tree(m) && Modules(m) <= w.ms.Keys && Built(w) && m in w.active
    requires Calls(XferUpTo(w, m, |w.active[m]|).1) == Calls(log1) && Calls(log2) == [] && below <= below'
    requires forall k :: 0 <= k < |w.active[m]| ==> BelowIn(w.active[m][k], below)
    ensures ChildrenPaired(w, m, log1 + log2, below')
  {
    LogSplit(log1, log2);
  }

  lemma {:induction false} PairedChildren<T, L>(w: World<T, L>, m: Module<T, L>, n: nat)
    requires Tree(m) && Distinct(m) && OrderedBelow(Watched, m) && n <= |m.submodules|
    requires Modules(m) <= w.ms.Keys && Built(w) && m in w.active && w.active[m] == []
    ensures Built(Children(w, m, n).0) && m in Children(w, m, n).0.active
    ensures ChildrenPaired(Children(w, m, n).0, m, Children(w, m, n).1, ModulesUpTo(m, n))
    decreases m.height, n + 1
  {
    hide *;
    if n == 0 {
      NothingPaired(w, m);
    } else {
      ChildModules(m, n);
      ChildOf(Watched, m, n);
      ChildrenNext(w, m, n - 1);
      PairedChildren(w, m, n - 1);
      ChildrenFrame(w, m, n - 1);
      ChildrenFrame(w, m, n);
      PairedTurn(Children(w, m, n - 1).0, m, n - 1, Children(w, m, n - 1).1);
    }
  }

  lemma {:induction false} PairedTurn<T, L>(w: World<T, L>, m: Module<T, L>, k: nat, log: seq<Event<T, L>>)
    requires Tree(m) && Distinct(m) && OrderedBelow(Watched, m) && k < |m.submodules|
    requires Modules(m) <= w.ms.Keys && Built(w) && m in w.active && Modules(m.submodules[k]) <= w.ms.Keys
    requires ChildrenPaired(w, m, log, ModulesUpTo(m, k))
    ensures Built(ChildTurn(w, m, k).0) && m in ChildTurn(w, m, k).0.active
    ensures ChildrenPaired(ChildTurn(w, m, k).0, m, log + ChildTurn(w, m, k).1, ModulesUpTo(m, k + 1))
    decreases m.height, 0
  {
    hide *;
    ChildModules(m, k + 1);
    ChildOf(Watched, m, k + 1);
    ChildTurnFrame(w, m, k);
    BuiltFacts(w);
    var c, r := m.submodules[k], ChildTurn(w, m, k);
    var a, below := w.active[m], ModulesUpTo(m, k);
    BuiltFacts(r.0);
    OutsideSameRuns(w, r.0, Modules(c) + {m}, below);
    if Pending(w, c) {
      assert (a + [c])[..|a|] == a;
      StillPaired(w, r.0, m, log, below, |a|);
      WorkingTurn(w, m, k);
      BelowItself(c, below + Modules(c));
      AddPaired(r.0, m, c, log, r.1, |a|, below, below + Modules(c));
    } else {
      assert (a + [])[..|a|] == a;
      StillPaired(w, r.0, m, log, below, |a|);
      QuietTurn(w, m, k);
      Quiet(w, c);
      SilentCalls(w, r, Owned(c));
      SkipPaired(r.0, m, log, r.1, below, below + Modules(c));
    }
  }

  lemma {:induction false} BelowItself<T, L>(c: Module<T, L>, ms: set<Module<T, L>>)
    requires Tree(c) && Modules(c) <= ms
    ensures BelowIn(c, ms)
  {
  }

  lemma {:induction false} SilentCalls<T, L>(w: World<T, L>, r: (World<T, L>, seq<Event<T, L>>),
                                             moved: set<SimQueue<T>>)
    requires Silent(w, r, moved)
    ensures Calls(r.1) == []
  {
  }

  lemma {:induction false} WorkingTurn<T, L>(w: World<T, L>, m: Module<T, L>, k: nat)
    requires Tree(m) && Distinct(m) && k < |m.submodules| && Modules(m) <= w.ms.Keys && Built(w) && m in w.active
    requires
      var c := m.submodules[k];
      && Modules(c) <= w.ms.Keys && Tree(c) && Distinct(c) && Ordered(Watched, c) && c.height < m.height
      && Pending(w, c)
    ensures
      var c, r := m.submodules[k], ChildTurn(w, m, k);
      Built(r.0) && c in r.0.active && Calls(XferPass(r.0, c).1) == Calls(r.1)
    decreases m.height, 0, 0
  {
    var c := m.submodules[k];
    var w0 := WithActive(w, m, w.active[m] + [c]);
    assert ChildTurn(w, m, k) == WorkPass(w0, c);
    assert forall j :: 0 <= j < |w.active[m]| ==> w.active[m][j] in m.submodules;
    hide *;
    ChildModules(m, k + 1);
    ActivateFrame(w, m, w.active[m] + [c]);
    SeenParts(Watched, c);
    Paired(w0, c);
  }

  /** After a pass over a module whose children are in order, `Xfer` over it runs `XferSelf` on exactly the
      modules whose `WorkSelf` ran in that pass, in the same order, whatever active lists earlier cycles
      left behind. */
  lemma {:induction false} Paired<T, L>(w: World<T, L>, m: Module<T, L>)
    requires Tree(m) && Distinct(m) && OrderedBelow(Watched, m) && Modules(m) <= w.ms.Keys && Built(w)
    ensures Built(WorkPass(w, m).0) && m in WorkPass(w, m).0.active
    ensures Calls(XferPass(WorkPass(w, m).0, m).1) == Calls(WorkPass(w, m).1)
    decreases m.height, |m.submodules| + 2
  {
    hide *;
    PendingParts(w, m);
    ModulesParts(m);
    BuiltFacts(w);
    var n := |m.submodules|;
    var w1, w2 := WorkStages(w, m);
    var w0, w3 := WithActive(w, m, []), WorkPass(w, m).0;
    ActivateFrame(w, m, []);
    VisitFrame(w0, m);
    ActiveNow(w, m);
    PairedChildren(w1, m, n);
    ChildrenFrame(w1, m, n);
    OwnedFrame(w2, m.ownedQueues, Modules(m));
    var log1, log2 := Visit(w0, m).1, Children(w1, m, n).1;
    BuiltFacts(w3);
    var v := XferStages(w3, m);
    XferTurnKeepsRuns(w3, m);
    LikeQueuesOnly(w2, w3, v);
    SameRunsPart(w2, v, w2.ms.Keys, ModulesUpTo(m, n));
    StillPaired(w2, v, m, log2, ModulesUpTo(m, n), |w2.active[m]|);
    RanCall(w0, m, w3);
    LogSplit(XferTurn(w3, m).1, XferUpTo(v, m, |w3.active[m]|).1);
    AdvanceOwnedLog(w2, m.ownedQueues);
    LogSplit(log1, log2);
    LogSplit(log1 + log2, AdvanceOwned(w2, m.ownedQueues).1);
  }

  lemma {:induction false} ActiveNow<T, L>(w: World<T, L>, m: Module<T, L>)
    requires m in w.ms
    ensures m in WithActive(w, m, []).active && WithActive(w, m, []).active[m] == []
    ensures WithActive(w, m, []).ms == w.ms
  {
  }

  lemma {:induction false} LikeQueuesOnly<T, L>(w2: World<T, L>, w3: World<T, L>, v: World<T, L>)
    requires w3.ms == w2.ms && w3.active == w2.active && Built(w3) && SameRuns(w3, v, w3.ms.Keys)
    ensures SameRuns(w2, v, w2.ms.Keys)
  {
  }

  lemma {:induction false} RanCall<T, L>(w0: World<T, L>, m: Module<T, L>, w3: World<T, L>)
    requires m in w0.ms && m in w3.ms && w3.ms[m].ran == HasEvent(w0, m)
    ensures Calls(XferTurn(w3, m).1) == Calls(Visit(w0, m).1)
  {
    VisitLog(w0, m);
  }

  /** So it is for the root of a hierarchically wired tree. */
  lemma {:induction false} XferRunsWhereWorkRan<T, L>(w: World<T, L>, root: Module<T, L>)
    requires Tree(root) && Distinct(root) && Wired(root, {}) && Modules(root) <= w.ms.Keys && Built(w)
    ensures Built(WorkPass(w, root).0) && root in WorkPass(w, root).0.active
    ensures Calls(XferPass(WorkPass(w, root).0, root).1) == Calls(WorkPass(w, root).1)
  {
    assert {} !! Owned(root);
    WiredIsOrdered(Watched, root, {});
    Paired(w, root);
  }
}
