/** The event-driven module tree. Structure (ports, children, owned queues, behaviour) is fixed once
    built; a `World` is the mutable state of a whole tree as a value. The functions say what one pass
    does to a world; the class does it in place. */
module Scheduler {
  import opened Words
  import W = Wrappers
  import opened QueueSpec
  import opened SimQueues

  /** One queue operation of a `WorkSelf` or `XferSelf`, on the port with that number (inputs, then outputs, then
      inners). `Work` on a queue belongs to the scheduler and is never one of them. */
  datatype PortOp<!T> = PortOp(port: nat, op: Op<T>)

  /** What a `WorkSelf` or `XferSelf` does: its own state afterwards, the queue operations it performs in
      order, and whether it calls `RequestActivation`. */
  datatype SelfStep<L, !T> = SelfStep(local: L, ops: seq<PortOp<T>>, activate: bool)

  datatype MState<L> = MState(
    observedInputs: seq<u64>, observedInners: seq<u64>, ran: bool, force: bool, local: L)

  type Queues<!T> = m: map<SimQueue<T>, QState<T>> | forall q :: q in m ==> Sound(m[q]) witness map[]

  datatype World<!T, !L> = World(
    ms: map<Module<T, L>, MState<L>>, qs: Queues<T>, active: map<Module<T, L>, seq<Module<T, L>>>)

  /** What an observer of a pass sees: a `WorkSelf` or `XferSelf` call, with the own state and the port
      views it is given and the queues as it finds and as it leaves them, or an owned queue advanced. */
  datatype Event<!T, !L> =
    | Ran(m: Module<T, L>, local: L, views: seq<W.Option<QState<T>>>, before: Queues<T>, after: Queues<T>)
    | Advanced(q: SimQueue<T>)

  class Module<T, L> {
    const inputs: seq<SimQueue?<T>>
    const outputs: seq<SimQueue?<T>>
    const inners: seq<SimQueue?<T>>
    const submodules: seq<Module<T, L>>
    const ownedQueues: seq<SimQueue<T>>
    const workSelf: (L, seq<W.Option<QState<T>>>) -> SelfStep<L, T>
    const xferSelf: (L, seq<W.Option<QState<T>>>) -> SelfStep<L, T>
    const resetSelf: L -> L
    ghost const height: nat

    var observedInputs: seq<u64>
    var observedInners: seq<u64>
    var active: seq<Module<T, L>>
    var ran: bool
    var force: bool
    var local: L

    ghost function State(): MState<L>
      reads this
    {
      MState(observedInputs, observedInners, ran, force, local)
    }

    constructor (inputs: seq<SimQueue?<T>>, outputs: seq<SimQueue?<T>>, inners: seq<SimQueue?<T>>,
                 submodules: seq<Module<T, L>>, ownedQueues: seq<SimQueue<T>>,
                 workSelf: (L, seq<W.Option<QState<T>>>) -> SelfStep<L, T>,
                 xferSelf: (L, seq<W.Option<QState<T>>>) -> SelfStep<L, T>, resetSelf: L -> L,
                 local: L, ghost height: nat)
      ensures State() == MState([], [], false, false, local) && active == []
      ensures this.inputs == inputs && this.outputs == outputs && this.inners == inners
      ensures this.submodules == submodules && this.ownedQueues == ownedQueues && this.height == height
      ensures this.workSelf == workSelf && this.xferSelf == xferSelf && this.resetSelf == resetSelf
    {
      this.inputs, this.outputs, this.inners := inputs, outputs, inners;
      this.submodules, this.ownedQueues := submodules, ownedQueues;
      this.workSelf, this.xferSelf, this.resetSelf := workSelf, xferSelf, resetSelf;
      this.height := height;
      observedInputs, observedInners, active, ran, force := [], [], [], false, false;
      this.local := local;
    }

    function Ports(): seq<SimQueue?<T>> {
      inputs + outputs + inners
    }

    // ---------- Field updates, seen as updates of the world ----------

    method SetRan(b: bool, ghost ms: set<Module<T, L>>, ghost qs: set<SimQueue<T>>)
      requires this in ms && AllSound(qs)
      modifies `ran
      ensures AllSound(qs)
      ensures Snap(ms, qs) == WithState(old(Snap(ms, qs)), this, old(State()).(ran := b))
    {
      ghost var w := Snap(ms, qs);
      ran := b;
      Stored(w, Snap(ms, qs), this);
    }

    method SetActive(a: seq<Module<T, L>>, ghost ms: set<Module<T, L>>, ghost qs: set<SimQueue<T>>)
      requires this in ms && AllSound(qs)
      modifies `active
      ensures AllSound(qs) && active == a
      ensures Snap(ms, qs) == WithActive(old(Snap(ms, qs)), this, a)
    {
      ghost var w := Snap(ms, qs);
      active := a;
      Stored(w, Snap(ms, qs), this);
    }

    // ---------- Input events ----------

    method QueuesChanged(queues: seq<SimQueue?<T>>, epochs: seq<u64>,
                         ghost ms: set<Module<T, L>>, ghost qs: set<SimQueue<T>>) returns (changed: bool)
      requires AllSound(qs) && forall q :: q in queues && q != null ==> q in qs
      ensures changed == (Epochs(Snap(ms, qs), queues) != epochs)
    {
      ghost var current := Epochs(Snap(ms, qs), queues);
      if |queues| != |epochs| {
        return true;
      }
      for idx := 0 to |queues|
        invariant forall k :: 0 <= k < idx ==> current[k] == epochs[k]
      {
        var now: u64 := 0;
        if queues[idx] != null {
          now := queues[idx].visibleEpoch;
        }
        assert queues[idx] != null ==> queues[idx] in qs;
        assert now == current[idx];
        if now != epochs[idx] {
          return true;
        }
      }
      return false;
    }

    method HasInputEvent(ghost ms: set<Module<T, L>>, ghost qs: set<SimQueue<T>>) returns (event: bool)
      requires this in ms && AllSound(qs) && Closed(ms, qs)
      ensures event == HasEvent(Snap(ms, qs), this)
    {
      PortsClosed(this, ms, qs);
      var i := QueuesChanged(inputs, observedInputs, ms, qs);
      var n := QueuesChanged(inners, observedInners, ms, qs);
      event := force || i || n;
    }

    method HasPendingWorkRecursive(ghost ms: set<Module<T, L>>, ghost qs: set<SimQueue<T>>) returns (pending: bool)
      requires Tree(this) && Modules(this) <= ms && AllSound(qs) && Closed(ms, qs)
      ensures pending == Pending(Snap(ms, qs), this)
      decreases height
    {
      hide HasEvent, Epochs, Closed, Sound;
      var event := HasInputEvent(ms, qs);
      if event {
        return true;
      }
      for k := 0 to |submodules|
        invariant ModulesUpTo(this, k) <= ms
        invariant !PendingUpTo(Snap(ms, qs), this, k)
      {
        InModules(this, k + 1);
        ModulesUpToGrow(this, k + 1, |submodules|);
        var child := submodules[k].HasPendingWorkRecursive(ms, qs);
        if child {
          PendingUpToGrow(Snap(ms, qs), this, k + 1, |submodules|);
          return true;
        }
      }
      return false;
    }

    method CaptureQueueEpochs(queues: seq<SimQueue?<T>>,
                              ghost ms: set<Module<T, L>>, ghost qs: set<SimQueue<T>>) returns (epochs: seq<u64>)
      requires AllSound(qs) && forall q :: q in queues && q != null ==> q in qs
      ensures epochs == Epochs(Snap(ms, qs), queues)
    {
      epochs := [];
      for idx := 0 to |queues|
        invariant |epochs| == idx
        invariant forall k :: 0 <= k < idx ==> epochs[k] == Epochs(Snap(ms, qs), queues)[k]
      {
        assert queues[idx] != null ==> queues[idx] in qs;
        var now: u64 := 0;
        if queues[idx] != null {
          now := queues[idx].visibleEpoch;
        }
        epochs := epochs + [now];
      }
    }

    method CaptureObservedInputEpochs(ghost ms: set<Module<T, L>>, ghost qs: set<SimQueue<T>>)
      requires this in ms && AllSound(qs) && Closed(ms, qs)
      modifies `observedInputs, `observedInners
      ensures AllSound(qs)
      ensures
        var w := old(Snap(ms, qs));
        Snap(ms, qs) == WithState(w, this, old(State()).(
          observedInputs := Epochs(w, inputs), observedInners := Epochs(w, inners)))
    {
      PortsClosed(this, ms, qs);
      var i := CaptureQueueEpochs(inputs, ms, qs);
      var n := CaptureQueueEpochs(inners, ms, qs);
      SetObserved(i, n, ms, qs);
    }

    method SetObserved(i: seq<u64>, n: seq<u64>, ghost ms: set<Module<T, L>>, ghost qs: set<SimQueue<T>>)
      requires this in ms && AllSound(qs)
      modifies `observedInputs, `observedInners
      ensures AllSound(qs)
      ensures Snap(ms, qs) ==
              WithState(old(Snap(ms, qs)), this, old(State()).(observedInputs := i, observedInners := n))
    {
      ghost var w := Snap(ms, qs);
      observedInputs, observedInners := i, n;
      Stored(w, Snap(ms, qs), this);
    }

    // ---------- One pass ----------

    method ReadViews(ghost ms: set<Module<T, L>>, ghost qs: set<SimQueue<T>>) returns (views: seq<W.Option<QState<T>>>)
      requires this in ms && AllSound(qs) && Closed(ms, qs)
      ensures views == Views(Snap(ms, qs), Ports())
    {
      var ports := Ports();
      views := [];
      for k := 0 to |ports|
        invariant |views| == k
        invariant forall j :: 0 <= j < k ==> views[j] == Views(Snap(ms, qs), ports)[j]
      {
        assert ports[k] != null ==> ports[k] in qs;
        if ports[k] == null {
          views := views + [W.None];
        } else {
          views := views + [W.Some(ports[k].State())];
        }
      }
    }

    method PerformOps(ops: seq<PortOp<T>>, ghost ms: set<Module<T, L>>, ghost qs: set<SimQueue<T>>)
      requires this in ms && AllSound(qs) && Closed(ms, qs)
      modifies qs
      ensures AllSound(qs)
      ensures Snap(ms, qs) == old(Snap(ms, qs)).(qs := PortRun(old(Snap(ms, qs)).qs, Ports(), ops))
    {
      var ports := Ports();
      for k := 0 to |ops|
        invariant AllSound(qs)
        invariant Snap(ms, qs) == old(Snap(ms, qs)).(qs := PortRun(old(Snap(ms, qs)).qs, ports, ops[..k]))
      {
        assert ops[..k + 1][..k] == ops[..k];
        var po := ops[k];
        if !po.op.Work? && po.port < |ports| && ports[po.port] != null {
          assert ports[po.port] in qs;
          Perform(ports[po.port], po.op, ms, qs);
        }
      }
      assert ops[..|ops|] == ops;
    }

    /** `WorkSelf`, clear the activation request, capture the epochs. */
    method TakeTurn(ghost ms: set<Module<T, L>>, ghost qs: set<SimQueue<T>>) returns (ghost event: Event<T, L>)
      requires this in ms && AllSound(qs) && Closed(ms, qs) && ran
      modifies `local, `force, `observedInputs, `observedInners, qs
      ensures AllSound(qs)
      ensures Snap(ms, qs) == SelfTurn(old(Snap(ms, qs)), this)
      ensures event == CallOf(old(Snap(ms, qs)), this, Snap(ms, qs).qs)
    {
      hide SelfTurn, PortRun, Views, Epochs, Closed;
      ghost var w := Snap(ms, qs);
      var views := ReadViews(ms, qs);
      var step := workSelf(local, views);
      event := Ran(this, local, views, w.qs, w.qs);
      PerformOps(step.ops, ms, qs);
      event := event.(after := Snap(ms, qs).qs);
      ghost var w' := Snap(ms, qs);
      Settle(step.local, step.activate, ms, qs);
      ghost var settled := State();
      EpochsOfQueues(Snap(ms, qs), w', inputs);
      EpochsOfQueues(Snap(ms, qs), w', inners);
      CaptureObservedInputEpochs(ms, qs);
      TurnAssembled(w, Snap(ms, qs), this, settled);
    }

    /** The module's own state after `WorkSelf`; a request made inside it is cleared at once. */
    method Settle(l: L, activate: bool, ghost ms: set<Module<T, L>>, ghost qs: set<SimQueue<T>>)
      requires this in ms && AllSound(qs)
      modifies `local, `force
      ensures AllSound(qs)
      ensures Snap(ms, qs) == WithState(old(Snap(ms, qs)), this, old(State()).(local := l, force := false))
    {
      ghost var w := Snap(ms, qs);
      local := l;
      if activate {
        force := true;
      }
      force := false;
      Stored(w, Snap(ms, qs), this);
    }

    method BeginWork(ghost ms: set<Module<T, L>>, ghost qs: set<SimQueue<T>>) returns (ghost log: seq<Event<T, L>>)
      requires this in ms && AllSound(qs) && Closed(ms, qs)
      modifies `ran, `local, `force, `observedInputs, `observedInners, qs
      ensures AllSound(qs)
      ensures (Snap(ms, qs), log) == Visit(old(Snap(ms, qs)), this)
    {
      var event := HasInputEvent(ms, qs);
      log := [];
      ghost var w := Snap(ms, qs);
      SetRan(event, ms, qs);
      if event {
        SelfTurnIgnoresRan(w, this);
        ghost var event := TakeTurn(ms, qs);
        log := [event];
      }
    }

    method VisitChildren(ghost ms: set<Module<T, L>>, ghost qs: set<SimQueue<T>>)
      returns (ghost log: seq<Event<T, L>>)
      requires Tree(this) && Modules(this) <= ms && AllSound(qs) && Closed(ms, qs)
      modifies ms, qs
      ensures AllSound(qs)
      ensures (Snap(ms, qs), log) == Children(old(Snap(ms, qs)), this, |submodules|)
      decreases height, 1
    {
      log := [];
      ghost var start, w := Snap(ms, qs), Snap(ms, qs);
      for k := 0 to |submodules|
        invariant AllSound(qs) && Snap(ms, qs) == w
        invariant (w, log) == Children(start, this, k)
      {
        InModules(this, k + 1);
        ghost var more := VisitChild(k, ms, qs);
        ChildrenNext(start, this, k);
        w, log := Snap(ms, qs), log + more;
      }
    }

    method VisitChild(k: nat, ghost ms: set<Module<T, L>>, ghost qs: set<SimQueue<T>>)
      returns (ghost log: seq<Event<T, L>>)
      requires Tree(this) && Modules(this) <= ms && AllSound(qs) && Closed(ms, qs) && k < |submodules|
      requires Modules(submodules[k]) <= ms
      modifies ms, qs
      ensures AllSound(qs)
      ensures (Snap(ms, qs), log) == ChildTurn(old(Snap(ms, qs)), this, k)
      decreases height, 0
    {
      hide WorkPass, IdlePass, Pending, Closed, ModulesUpTo;
      var child := submodules[k];
      var pending := child.HasPendingWorkRecursive(ms, qs);
      if pending {
        SetActive(active + [child], ms, qs);
        log := child.Work(ms, qs);
      } else {
        log := child.AdvanceQueuesOnly(ms, qs);
      }
    }

    method AdvanceOwnedQueues(ghost ms: set<Module<T, L>>, ghost qs: set<SimQueue<T>>)
      returns (ghost log: seq<Event<T, L>>)
      requires this in ms && AllSound(qs) && Closed(ms, qs)
      modifies qs
      ensures AllSound(qs)
      ensures (Snap(ms, qs), log) == AdvanceOwned(old(Snap(ms, qs)), ownedQueues)
    {
      log := [];
      for k := 0 to |ownedQueues|
        invariant AllSound(qs)
        invariant (Snap(ms, qs), log) == AdvanceOwned(old(Snap(ms, qs)), ownedQueues[..k])
      {
        assert ownedQueues[..k + 1][..k] == ownedQueues[..k];
        assert ownedQueues[k] in qs;
        Perform(ownedQueues[k], Op.Work, ms, qs);
        log := log + [Advanced(ownedQueues[k])];
      }
      assert ownedQueues[..|ownedQueues|] == ownedQueues;
    }

    method Work(ghost ms: set<Module<T, L>>, ghost qs: set<SimQueue<T>>) returns (ghost log: seq<Event<T, L>>)
      requires Tree(this) && Modules(this) <= ms && AllSound(qs) && Closed(ms, qs)
      modifies ms, qs
      ensures AllSound(qs)
      ensures (Snap(ms, qs), log) == WorkPass(old(Snap(ms, qs)), this)
      decreases height, 2
    {
      SetActive([], ms, qs);
      log := BeginWork(ms, qs);
      ghost var inner := VisitChildren(ms, qs);
      ghost var own := AdvanceOwnedQueues(ms, qs);
      log := log + inner + own;
    }

    method AdvanceQueuesOnly(ghost ms: set<Module<T, L>>, ghost qs: set<SimQueue<T>>)
      returns (ghost log: seq<Event<T, L>>)
      requires Tree(this) && Modules(this) <= ms && AllSound(qs) && Closed(ms, qs)
      modifies ms, qs
      ensures AllSound(qs)
      ensures (Snap(ms, qs), log) == IdlePass(old(Snap(ms, qs)), this)
      decreases height, 2
    {
      SetRan(false, ms, qs);
      SetActive([], ms, qs);
      log := VisitChildren(ms, qs);
      ghost var own := AdvanceOwnedQueues(ms, qs);
      log := log + own;
    }

    // ---------- Xfer ----------

    method XferOwn(ghost ms: set<Module<T, L>>, ghost qs: set<SimQueue<T>>) returns (ghost log: seq<Event<T, L>>)
      requires this in ms && AllSound(qs) && Closed(ms, qs)
      modifies `local, `force, qs
      ensures AllSound(qs)
      ensures (Snap(ms, qs), log) == XferTurn(old(Snap(ms, qs)), this)
    {
      hide PortRun, Views, Closed;
      log := [];
      if ran {
        ghost var w := Snap(ms, qs);
        var views := ReadViews(ms, qs);
        var step := xferSelf(local, views);
        ghost var event := Ran(this, local, views, w.qs, w.qs);
        PerformOps(step.ops, ms, qs);
        log := [event.(after := Snap(ms, qs).qs)];
        SettleXfer(step.local, step.activate, ms, qs);
      }
    }

    /** The module's own state after `XferSelf`; a request made inside it stays. */
    method SettleXfer(l: L, activate: bool, ghost ms: set<Module<T, L>>, ghost qs: set<SimQueue<T>>)
      requires this in ms && AllSound(qs)
      modifies `local, `force
      ensures AllSound(qs)
      ensures Snap(ms, qs) ==
              WithState(old(Snap(ms, qs)), this, old(State()).(local := l, force := old(force) || activate))
    {
      ghost var w := Snap(ms, qs);
      local := l;
      if activate {
        force := true;
      }
      Stored(w, Snap(ms, qs), this);
    }

    /** The queues' own `Xfer` does nothing, so only modules appear. */
    method Xfer(ghost ms: set<Module<T, L>>, ghost qs: set<SimQueue<T>>) returns (ghost log: seq<Event<T, L>>)
      requires Tree(this) && Modules(this) <= ms && AllSound(qs) && Closed(ms, qs) && ActiveInside(Snap(ms, qs))
      modifies ms, qs
      ensures AllSound(qs)
      ensures (Snap(ms, qs), log) == XferPass(old(Snap(ms, qs)), this)
      decreases height
    {
      hide Closed, XferTurn;
      log := XferOwn(ms, qs);
      ghost var start, w, inner := Snap(ms, qs), Snap(ms, qs), [];
      for k := 0 to |active|
        invariant AllSound(qs) && Snap(ms, qs) == w && w.active == start.active && active == start.active[this]
        invariant (w, inner) == XferUpTo(start, this, k)
      {
        ActiveChild(start, this, k);
        ghost var more := active[k].Xfer(ms, qs);
        w, inner := Snap(ms, qs), inner + more;
      }
      log := log + inner;
    }

    // ---------- Reset ----------

    method ResetEventState(ghost ms: set<Module<T, L>>, ghost qs: set<SimQueue<T>>)
      requires Tree(this) && Modules(this) <= ms && AllSound(qs) && Closed(ms, qs)
      modifies ms
      ensures AllSound(qs)
      ensures Snap(ms, qs) == ResetEvents(old(Snap(ms, qs)), this)
      decreases height
    {
      ResetOwnEvents(ms, qs);
      ghost var start, w := Snap(ms, qs), Snap(ms, qs);
      for k := 0 to |submodules|
        invariant AllSound(qs) && Snap(ms, qs) == w
        invariant w == ResetEventsUpTo(start, this, k)
      {
        InModules(this, k + 1);
        submodules[k].ResetEventState(ms, qs);
        w := Snap(ms, qs);
      }
    }

    method ResetOwnEvents(ghost ms: set<Module<T, L>>, ghost qs: set<SimQueue<T>>)
      requires this in ms && AllSound(qs) && Closed(ms, qs)
      modifies `force, `ran, `active, `observedInputs, `observedInners
      ensures AllSound(qs)
      ensures Snap(ms, qs) == QuietModule(old(Snap(ms, qs)), this)
    {
      hide Epochs, Closed;
      ghost var w := Snap(ms, qs);
      ClearFlags(ms, qs);
      ghost var cleared := Snap(ms, qs);
      CaptureObservedInputEpochs(ms, qs);
      QuietAssembled(w, cleared, Snap(ms, qs), this);
    }

    method ClearFlags(ghost ms: set<Module<T, L>>, ghost qs: set<SimQueue<T>>)
      requires this in ms && AllSound(qs)
      modifies `force, `ran, `active
      ensures AllSound(qs)
      ensures Snap(ms, qs) ==
              WithActive(WithState(old(Snap(ms, qs)), this, old(State()).(force := false, ran := false)), this, [])
    {
      ghost var w := Snap(ms, qs);
      force, ran, active := false, false, [];
      Stored(w, Snap(ms, qs), this);
    }

    method ResetOwnState(ghost ms: set<Module<T, L>>, ghost qs: set<SimQueue<T>>)
      requires this in ms && AllSound(qs)
      modifies `local
      ensures AllSound(qs)
      ensures Snap(ms, qs) == WithState(old(Snap(ms, qs)), this, old(State()).(local := resetSelf(old(local))))
    {
      ghost var w := Snap(ms, qs);
      local := resetSelf(local);
      Stored(w, Snap(ms, qs), this);
    }

    method ResetOwnQueues(ghost ms: set<Module<T, L>>, ghost qs: set<SimQueue<T>>)
      requires this in ms && AllSound(qs) && Closed(ms, qs)
      modifies qs
      ensures AllSound(qs)
      ensures Snap(ms, qs) == ResetOwned(old(Snap(ms, qs)), ownedQueues)
    {
      for k := 0 to |ownedQueues|
        invariant AllSound(qs)
        invariant Snap(ms, qs) == ResetOwned(old(Snap(ms, qs)), ownedQueues[..k])
      {
        assert ownedQueues[..k + 1][..k] == ownedQueues[..k];
        assert ownedQueues[k] in qs;
        Perform(ownedQueues[k], Op.Reset, ms, qs);
      }
      assert ownedQueues[..|ownedQueues|] == ownedQueues;
    }

    method Reset(ghost ms: set<Module<T, L>>, ghost qs: set<SimQueue<T>>)
      requires Tree(this) && Modules(this) <= ms && AllSound(qs) && Closed(ms, qs)
      modifies ms, qs
      ensures AllSound(qs)
      ensures Snap(ms, qs) == ResetPass(old(Snap(ms, qs)), this)
      decreases height, 1
    {
      ResetOwnState(ms, qs);
      ResetChildren(ms, qs);
      ResetOwnQueues(ms, qs);
      ResetEventState(ms, qs);
    }

    method ResetChildren(ghost ms: set<Module<T, L>>, ghost qs: set<SimQueue<T>>)
      requires Tree(this) && Modules(this) <= ms && AllSound(qs) && Closed(ms, qs)
      modifies ms, qs
      ensures AllSound(qs)
      ensures Snap(ms, qs) == ResetUpTo(old(Snap(ms, qs)), this, |submodules|)
      decreases height, 0
    {
      ghost var start, w := Snap(ms, qs), Snap(ms, qs);
      for k := 0 to |submodules|
        invariant AllSound(qs) && Snap(ms, qs) == w
        invariant w == ResetUpTo(start, this, k)
      {
        InModules(this, k + 1);
        submodules[k].Reset(ms, qs);
        w := Snap(ms, qs);
      }
    }
  }

  // ---------- Objects and worlds ----------

  ghost predicate AllSound<T>(qs: set<SimQueue<T>>)
    reads qs
  {
    forall q :: q in qs ==> Sound(q.State())
  }

  /** The world the given objects hold now. */
  ghost function Snap<T, L>(ms: set<Module<T, L>>, qs: set<SimQueue<T>>): World<T, L>
    requires AllSound(qs)
    reads ms, qs
  {
    World(map m | m in ms :: m.State(), map q | q in qs :: q.State(), map m | m in ms :: m.active)
  }

  /** Every bound or owned queue of these modules is among these queues. */
  ghost predicate Closed<T, L>(ms: set<Module<T, L>>, qs: set<SimQueue<T>>) {
    forall m :: m in ms ==>
      && (forall q :: q in m.Ports() && q != null ==> q in qs)
      && (forall q :: q in m.ownedQueues ==> q in qs)
  }

  lemma {:induction false} PortsClosed<T, L>(m: Module<T, L>, ms: set<Module<T, L>>, qs: set<SimQueue<T>>)
    requires m in ms && Closed(ms, qs)
    ensures forall q :: q in m.inputs && q != null ==> q in qs
    ensures forall q :: q in m.inners && q != null ==> q in qs
  {
    assert forall q :: q in m.inputs ==> q in m.Ports();
    assert forall q :: q in m.inners ==> q in m.Ports();
  }

  /** Runs one operation on one queue object. */
  method Dispatch<T>(q: SimQueue<T>, op: Op<T>)
    requires Sound(q.State())
    modifies q
    ensures q.State() == Apply(old(q.State()), op)
  {
    match op
    case Write(x) => var _ := q.Write(x);
    case Read => var _ := q.Pop();
    case Work => q.Work();
    case FlushIf(doomed) => var _ := q.FlushIf(doomed);
    case SetLatency(n) => q.SetLatency(n);
    case SetStall(b) => q.SetStall(b);
    case InitMaxSize(n) => var _ := q.InitMaxSize(n);
    case Reset => q.Reset();
  }

  method Perform<T, L>(q: SimQueue<T>, op: Op<T>, ghost ms: set<Module<T, L>>, ghost qs: set<SimQueue<T>>)
    requires q in qs && AllSound(qs)
    modifies q
    ensures AllSound(qs)
    ensures Snap(ms, qs) == old(Snap(ms, qs)).(qs := old(Snap(ms, qs)).qs[q := Apply(old(q.State()), op)])
  {
    ghost var w: World<T, L> := Snap(ms, qs);
    Dispatch(q, op);
    assert Snap<T, L>(ms, qs).qs == w.qs[q := q.State()];
    assert Snap<T, L>(ms, qs).ms == w.ms && Snap<T, L>(ms, qs).active == w.active;
  }

  /** Two worlds that differ at most at module m. */
  ghost predicate SameBut<T, L>(w: World<T, L>, w': World<T, L>, m: Module<T, L>) {
    && w'.qs == w.qs && w'.ms.Keys == w.ms.Keys && w'.active.Keys == w.active.Keys
    && m in w.ms && m in w.active
    && (forall x :: x in w.ms && x != m ==> w'.ms[x] == w.ms[x])
    && (forall x :: x in w.active && x != m ==> w'.active[x] == w.active[x])
  }

  lemma {:induction false} Stored<T, L>(w: World<T, L>, w': World<T, L>, m: Module<T, L>)
    requires SameBut(w, w', m)
    ensures w' == World(w.ms[m := w'.ms[m]], w.qs, w.active[m := w'.active[m]])
    ensures w'.active[m] == w.active[m] ==> w'.active == w.active
  {
    assert w'.ms == w.ms[m := w'.ms[m]];
    assert w'.active == w.active[m := w'.active[m]];
  }

  // ---------- The tree ----------

  ghost predicate Tree<T, L>(m: Module<T, L>)
    decreases m.height
  {
    forall k :: 0 <= k < |m.submodules| ==> m.submodules[k].height < m.height && Tree(m.submodules[k])
  }

  ghost function ModulesUpTo<T, L>(m: Module<T, L>, n: nat): set<Module<T, L>>
    requires Tree(m) && n <= |m.submodules|
    decreases m.height, n
  {
    if n == 0 then {} else ModulesUpTo(m, n - 1) + Modules(m.submodules[n - 1])
  }

  /** The module and everything below it. */
  ghost function Modules<T, L>(m: Module<T, L>): set<Module<T, L>>
    requires Tree(m)
    decreases m.height, |m.submodules| + 1
  {
    {m} + ModulesUpTo(m, |m.submodules|)
  }

  // ---------- Reading a world ----------

  ghost function Q<T, L>(w: World<T, L>, q: SimQueue<T>): (s: QState<T>)
    ensures Sound(s)
  {
    if q in w.qs then w.qs[q] else Fresh(1, 0)
  }

  ghost function Epochs<T, L>(w: World<T, L>, qs: seq<SimQueue?<T>>): (es: seq<u64>)
    ensures |es| == |qs|
    ensures forall k :: 0 <= k < |qs| ==> es[k] == if qs[k] == null then 0 else Q(w, qs[k]).epoch
  {
    seq(|qs|, (k: int) requires 0 <= k < |qs| => if qs[k] == null then 0 else Q(w, qs[k]).epoch)
  }

  ghost function Views<T, L>(w: World<T, L>, qs: seq<SimQueue?<T>>): seq<W.Option<QState<T>>> {
    seq(|qs|, (k: int) requires 0 <= k < |qs| => if qs[k] == null then W.None else W.Some(Q(w, qs[k])))
  }

  /** `HasInputEvent`: forced, or the observed epochs are out of date. */
  ghost predicate HasEvent<T, L>(w: World<T, L>, m: Module<T, L>)
    requires m in w.ms
  {
    || w.ms[m].force
    || Epochs(w, m.inputs) != w.ms[m].observedInputs
    || Epochs(w, m.inners) != w.ms[m].observedInners
  }

  /** `HasPendingWorkRecursive`. */
  ghost predicate Pending<T, L>(w: World<T, L>, m: Module<T, L>)
    requires Tree(m) && Modules(m) <= w.ms.Keys
    decreases m.height, |m.submodules| + 1
  {
    HasEvent(w, m) || PendingUpTo(w, m, |m.submodules|)
  }

  ghost predicate PendingUpTo<T, L>(w: World<T, L>, m: Module<T, L>, n: nat)
    requires Tree(m) && n <= |m.submodules| && ModulesUpTo(m, n) <= w.ms.Keys
    decreases m.height, n
  {
    n > 0 && (PendingUpTo(w, m, n - 1) || Pending(w, m.submodules[n - 1]))
  }

  // ---------- One module's own turn ----------

  /** An operation issued by a `WorkSelf` or `XferSelf`; one that its `SimQueue` method refuses by an
      assertion changes nothing, nor does one on an unbound port. */
  ghost function PortApply<T>(qs: Queues<T>, ports: seq<SimQueue?<T>>, po: PortOp<T>): Queues<T> {
    if po.op.Work? || po.port >= |ports| || ports[po.port] == null || ports[po.port] !in qs then qs
    else qs[ports[po.port] := Apply(qs[ports[po.port]], po.op)]
  }

  ghost function PortRun<T>(qs: Queues<T>, ports: seq<SimQueue?<T>>, ops: seq<PortOp<T>>): Queues<T> {
    if ops == [] then qs else PortApply(PortRun(qs, ports, ops[..|ops| - 1]), ports, ops[|ops| - 1])
  }

  ghost function WithState<T, L>(w: World<T, L>, m: Module<T, L>, s: MState<L>): World<T, L> {
    w.(ms := w.ms[m := s])
  }

  /** `WorkSelf`, then the activation request is cleared, then the epochs are captured. */
  ghost function SelfTurn<T, L>(w: World<T, L>, m: Module<T, L>): World<T, L>
    requires m in w.ms
  {
    var step := m.workSelf(w.ms[m].local, Views(w, m.Ports()));
    var w' := w.(qs := PortRun(w.qs, m.Ports(), step.ops));
    WithState(w', m, MState(Epochs(w', m.inputs), Epochs(w', m.inners), true, false, step.local))
  }

  /** The call of a `WorkSelf` or `XferSelf` of m, made in w and leaving these queues. */
  ghost function CallOf<T, L>(w: World<T, L>, m: Module<T, L>, after: Queues<T>): Event<T, L>
    requires m in w.ms
  {
    Ran(m, w.ms[m].local, Views(w, m.Ports()), w.qs, after)
  }

  /** The head of `Work`: run `WorkSelf` exactly when there is an input event. */
  ghost function Visit<T, L>(w: World<T, L>, m: Module<T, L>): (World<T, L>, seq<Event<T, L>>)
    requires m in w.ms
  {
    if HasEvent(w, m) then (SelfTurn(w, m), [CallOf(w, m, SelfTurn(w, m).qs)])
    else (WithState(w, m, w.ms[m].(ran := false)), [])
  }

  ghost function Advance<T, L>(w: World<T, L>, q: SimQueue<T>): World<T, L> {
    if q in w.qs then w.(qs := w.qs[q := Apply(w.qs[q], Op.Work)]) else w
  }

  ghost function AdvanceOwned<T, L>(w: World<T, L>, qs: seq<SimQueue<T>>): (World<T, L>, seq<Event<T, L>>) {
    if qs == [] then (w, [])
    else
      var (w', log) := AdvanceOwned(w, qs[..|qs| - 1]);
      (Advance(w', qs[|qs| - 1]), log + [Advanced(qs[|qs| - 1])])
  }

  // ---------- A pass as the code makes it ----------

  ghost function WithActive<T, L>(w: World<T, L>, m: Module<T, L>, a: seq<Module<T, L>>): World<T, L> {
    w.(active := w.active[m := a])
  }

  /** One child's turn: it works if something below it is pending, else only its queues advance. */
  ghost function ChildTurn<T, L>(w: World<T, L>, m: Module<T, L>, k: nat): (r: (World<T, L>, seq<Event<T, L>>))
    requires Tree(m) && k < |m.submodules| && Modules(m.submodules[k]) <= w.ms.Keys && m in w.active
    ensures r.0.ms.Keys == w.ms.Keys && r.0.qs.Keys == w.qs.Keys && w.active.Keys <= r.0.active.Keys
    decreases m.height, 0
  {
    var child := m.submodules[k];
    if Pending(w, child) then WorkPass(WithActive(w, m, w.active[m] + [child]), child)
    else IdlePass(w, child)
  }

  ghost function Children<T, L>(w: World<T, L>, m: Module<T, L>, n: nat): (r: (World<T, L>, seq<Event<T, L>>))
    requires Tree(m) && n <= |m.submodules| && Modules(m) <= w.ms.Keys && m in w.active
    ensures r.0.ms.Keys == w.ms.Keys && r.0.qs.Keys == w.qs.Keys && w.active.Keys <= r.0.active.Keys
    decreases m.height, n + 1
  {
    if n == 0 then (w, [])
    else
      var (w1, log1) := Children(w, m, n - 1);
      InModules(m, n);
      var (w2, log2) := ChildTurn(w1, m, n - 1);
      (w2, log1 + log2)
  }

  lemma {:induction false} ChildrenNext<T, L>(w: World<T, L>, m: Module<T, L>, k: nat)
    requires Tree(m) && k < |m.submodules| && Modules(m) <= w.ms.Keys && m in w.active
    ensures Modules(m.submodules[k]) <= w.ms.Keys
    ensures
      var (w1, log1) := Children(w, m, k);
      var (w2, log2) := ChildTurn(w1, m, k);
      Children(w, m, k + 1) == (w2, log1 + log2)
  {
    InModules(m, k + 1);
  }

  /** `Module::Work`. */
  ghost function WorkPass<T, L>(w: World<T, L>, m: Module<T, L>): (r: (World<T, L>, seq<Event<T, L>>))
    requires Tree(m) && Modules(m) <= w.ms.Keys
    ensures r.0.ms.Keys == w.ms.Keys && r.0.qs.Keys == w.qs.Keys && w.active.Keys <= r.0.active.Keys
    decreases m.height, |m.submodules| + 2
  {
    var (w1, log1) := Visit(WithActive(w, m, []), m);
    PortRunKeys(w.qs, m.Ports(), m.workSelf(w.ms[m].local, Views(WithActive(w, m, []), m.Ports())).ops);
    var (w2, log2) := Children(w1, m, |m.submodules|);
    var (w3, log3) := AdvanceOwned(w2, m.ownedQueues);
    AdvanceOwnedKeys(w2, m.ownedQueues);
    (w3, log1 + log2 + log3)
  }

  /** `Module::AdvanceQueuesOnly`. */
  ghost function IdlePass<T, L>(w: World<T, L>, m: Module<T, L>): (r: (World<T, L>, seq<Event<T, L>>))
    requires Tree(m) && Modules(m) <= w.ms.Keys
    ensures r.0.ms.Keys == w.ms.Keys && r.0.qs.Keys == w.qs.Keys && w.active.Keys <= r.0.active.Keys
    decreases m.height, |m.submodules| + 2
  {
    var w1 := WithActive(WithState(w, m, w.ms[m].(ran := false)), m, []);
    var (w2, log2) := Children(w1, m, |m.submodules|);
    var (w3, log3) := AdvanceOwned(w2, m.ownedQueues);
    AdvanceOwnedKeys(w2, m.ownedQueues);
    (w3, log2 + log3)
  }

  // ---------- Xfer and Reset ----------

  /** Every active list names children of its module. */
  ghost predicate ActiveInside<T, L>(w: World<T, L>) {
    forall m :: m in w.active ==> forall k :: 0 <= k < |w.active[m]| ==> w.active[m][k] in m.submodules
  }

  /** `XferSelf`, on a module whose `WorkSelf` ran; it may use the bound queues and ask for activation. */
  ghost function XferTurn<T, L>(w: World<T, L>, m: Module<T, L>): (r: (World<T, L>, seq<Event<T, L>>))
    requires m in w.ms
    ensures r.0.active == w.active && r.0.ms.Keys == w.ms.Keys && r.0.qs.Keys == w.qs.Keys
  {
    if !w.ms[m].ran then (w, [])
    else
      var step := m.xferSelf(w.ms[m].local, Views(w, m.Ports()));
      PortRunKeys(w.qs, m.Ports(), step.ops);
      (WithState(w.(qs := PortRun(w.qs, m.Ports(), step.ops)), m,
                 w.ms[m].(local := step.local, force := w.ms[m].force || step.activate)),
       [CallOf(w, m, PortRun(w.qs, m.Ports(), step.ops))])
  }

  ghost function XferUpTo<T, L>(w: World<T, L>, m: Module<T, L>, n: nat): (r: (World<T, L>, seq<Event<T, L>>))
    requires Tree(m) && Modules(m) <= w.ms.Keys && ActiveInside(w) && m in w.active && n <= |w.active[m]|
    ensures r.0.active == w.active && r.0.ms.Keys == w.ms.Keys && r.0.qs.Keys == w.qs.Keys
    decreases m.height, n
  {
    if n == 0 then (w, [])
    else
      var (w1, log1) := XferUpTo(w, m, n - 1);
      ActiveChild(w, m, n - 1);
      if w.active[m][n - 1] !in w.active then (w1, log1)
      else
        var (w2, log2) := XferPass(w1, w.active[m][n - 1]);
        (w2, log1 + log2)
  }

  /** `Module::Xfer`: the `XferSelf` calls in order. */
  ghost function XferPass<T, L>(w: World<T, L>, m: Module<T, L>): (r: (World<T, L>, seq<Event<T, L>>))
    requires Tree(m) && Modules(m) <= w.ms.Keys && ActiveInside(w) && m in w.active
    ensures r.0.active == w.active && r.0.ms.Keys == w.ms.Keys && r.0.qs.Keys == w.qs.Keys
    decreases m.height, |w.active[m]| + 1
  {
    var (w1, log1) := XferTurn(w, m);
    var (w2, log2) := XferUpTo(w1, m, |w.active[m]|);
    (w2, log1 + log2)
  }

  lemma {:induction false} ActiveChild<T, L>(w: World<T, L>, m: Module<T, L>, k: nat)
    requires Tree(m) && ActiveInside(w) && m in w.active && k < |w.active[m]|
    ensures
      var a := w.active[m][k];
      a.height < m.height && Tree(a) && Modules(a) <= Modules(m)
  {
    assert w.active[m][k] in m.submodules;
    var j :| 0 <= j < |m.submodules| && m.submodules[j] == w.active[m][k];
    InModules(m, j + 1);
  }

  ghost function QuietModule<T, L>(w: World<T, L>, m: Module<T, L>): World<T, L>
    requires m in w.ms
  {
    WithActive(WithState(w, m, MState(Epochs(w, m.inputs), Epochs(w, m.inners), false, false, w.ms[m].local)), m, [])
  }

  ghost function ResetEventsUpTo<T, L>(w: World<T, L>, m: Module<T, L>, n: nat): (r: World<T, L>)
    requires Tree(m) && n <= |m.submodules| && Modules(m) <= w.ms.Keys
    ensures r.ms.Keys == w.ms.Keys && r.qs == w.qs && w.active.Keys <= r.active.Keys
    decreases m.height, n
  {
    if n == 0 then w
    else
      InModules(m, n);
      ResetEvents(ResetEventsUpTo(w, m, n - 1), m.submodules[n - 1])
  }

  /** `ResetEventState`. */
  ghost function ResetEvents<T, L>(w: World<T, L>, m: Module<T, L>): (r: World<T, L>)
    requires Tree(m) && Modules(m) <= w.ms.Keys
    ensures r.ms.Keys == w.ms.Keys && r.qs == w.qs && w.active.Keys <= r.active.Keys
    decreases m.height, |m.submodules| + 1
  {
    ResetEventsUpTo(QuietModule(w, m), m, |m.submodules|)
  }

  ghost function ResetOwned<T, L>(w: World<T, L>, qs: seq<SimQueue<T>>): (r: World<T, L>)
    ensures r.ms == w.ms && r.active == w.active && r.qs.Keys == w.qs.Keys
  {
    if qs == [] then w
    else
      var w' := ResetOwned(w, qs[..|qs| - 1]);
      var q := qs[|qs| - 1];
      if q in w'.qs then w'.(qs := w'.qs[q := Apply(w'.qs[q], Op.Reset)]) else w'
  }

  ghost function ResetUpTo<T, L>(w: World<T, L>, m: Module<T, L>, n: nat): (r: World<T, L>)
    requires Tree(m) && n <= |m.submodules| && Modules(m) <= w.ms.Keys
    ensures r.ms.Keys == w.ms.Keys && r.qs.Keys == w.qs.Keys && w.active.Keys <= r.active.Keys
    decreases m.height, n
  {
    if n == 0 then w
    else
      InModules(m, n);
      ResetPass(ResetUpTo(w, m, n - 1), m.submodules[n - 1])
  }

  /** `Module::Reset`: own state, children, owned queues, then the event state of the whole subtree. */
  ghost function ResetPass<T, L>(w: World<T, L>, m: Module<T, L>): (r: World<T, L>)
    requires Tree(m) && Modules(m) <= w.ms.Keys
    ensures r.ms.Keys == w.ms.Keys && r.qs.Keys == w.qs.Keys && w.active.Keys <= r.active.Keys
    decreases m.height, |m.submodules| + 1
  {
    var w1 := WithState(w, m, w.ms[m].(local := m.resetSelf(w.ms[m].local)));
    var w2 := ResetOwned(ResetUpTo(w1, m, |m.submodules|), m.ownedQueues);
    ResetEvents(w2, m)
  }

  lemma {:induction false} InModules<T, L>(m: Module<T, L>, n: nat)
    requires Tree(m) && 0 < n <= |m.submodules|
    ensures Modules(m.submodules[n - 1]) <= Modules(m)
    decreases |m.submodules| - n
  {
    ModulesUpToGrow(m, n, |m.submodules|);
  }

  lemma {:induction false} ModulesUpToGrow<T, L>(m: Module<T, L>, n: nat, k: nat)
    requires Tree(m) && n <= k <= |m.submodules|
    ensures ModulesUpTo(m, n) <= ModulesUpTo(m, k)
  {
    if n < k {
      ModulesUpToGrow(m, n, k - 1);
    }
  }

  lemma {:induction false} EpochsOfQueues<T, L>(w1: World<T, L>, w2: World<T, L>, qs: seq<SimQueue?<T>>)
    requires w1.qs == w2.qs
    ensures Epochs(w1, qs) == Epochs(w2, qs) && Views(w1, qs) == Views(w2, qs)
  {
    assert forall q :: Q(w1, q) == Q(w2, q);
  }

  /** Clearing the flags and capturing, put together. */
  lemma {:induction false} QuietAssembled<T, L>(w: World<T, L>, cleared: World<T, L>, last: World<T, L>,
                                                m: Module<T, L>)
    requires m in w.ms
    requires cleared == WithActive(WithState(w, m, w.ms[m].(force := false, ran := false)), m, [])
    requires last == WithState(cleared, m, cleared.ms[m].(
               observedInputs := Epochs(cleared, m.inputs), observedInners := Epochs(cleared, m.inners)))
    ensures last == QuietModule(w, m)
  {
    EpochsOfQueues(cleared, w, m.inputs);
    EpochsOfQueues(cleared, w, m.inners);
  }

  /** Performing the operations, settling and capturing, put together. */
  lemma {:induction false} TurnAssembled<T, L>(w: World<T, L>, last: World<T, L>, m: Module<T, L>, settled: MState<L>)
    requires m in w.ms && w.ms[m].ran
    requires
      var step := m.workSelf(w.ms[m].local, Views(w, m.Ports()));
      var w' := w.(qs := PortRun(w.qs, m.Ports(), step.ops));
      && settled == w.ms[m].(local := step.local, force := false)
      && last == WithState(WithState(w', m, settled), m, settled.(
           observedInputs := Epochs(w', m.inputs), observedInners := Epochs(w', m.inners)))
    ensures last == SelfTurn(w, m)
  {
    assert last.ms == w.ms[m := last.ms[m]];
  }

  lemma {:induction false} SelfTurnIgnoresRan<T, L>(w: World<T, L>, m: Module<T, L>)
    requires m in w.ms
    ensures SelfTurn(WithState(w, m, w.ms[m].(ran := true)), m) == SelfTurn(w, m)
    ensures Views(WithState(w, m, w.ms[m].(ran := true)), m.Ports()) == Views(w, m.Ports())
  {
    var w1 := WithState(w, m, w.ms[m].(ran := true));
    EpochsOfQueues(w1, w, m.Ports());
    var step := m.workSelf(w.ms[m].local, Views(w, m.Ports()));
    var qs' := PortRun(w.qs, m.Ports(), step.ops);
    EpochsOfQueues(w1.(qs := qs'), w.(qs := qs'), m.inputs);
    EpochsOfQueues(w1.(qs := qs'), w.(qs := qs'), m.inners);
  }

  lemma {:induction false} PendingUpToGrow<T, L>(w: World<T, L>, m: Module<T, L>, n: nat, k: nat)
    requires Tree(m) && n <= k <= |m.submodules| && ModulesUpTo(m, k) <= w.ms.Keys
    requires ModulesUpTo(m, n) <= w.ms.Keys && PendingUpTo(w, m, n)
    ensures PendingUpTo(w, m, k)
  {
    if n < k {
      PendingUpToGrow(w, m, n, k - 1);
    }
  }

  lemma {:induction false} PortRunKeys<T>(qs: Queues<T>, ports: seq<SimQueue?<T>>, ops: seq<PortOp<T>>)
    ensures PortRun(qs, ports, ops).Keys == qs.Keys
  {
    if ops != [] {
      PortRunKeys(qs, ports, ops[..|ops| - 1]);
    }
  }

  lemma {:induction false} AdvanceOwnedKeys<T, L>(w: World<T, L>, qs: seq<SimQueue<T>>)
    ensures
      var r := AdvanceOwned(w, qs).0;
      r.ms == w.ms && r.active == w.active && r.qs.Keys == w.qs.Keys
  {
    if qs != [] {
      AdvanceOwnedKeys(w, qs[..|qs| - 1]);
    }
  }
}
