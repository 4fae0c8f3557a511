/** The system of registered root modules: every `Work`, then every `Xfer`, in place. */
module SystemStep {
  import opened Words
  import opened SimQueues
  import opened Scheduler
  import opened SchedulerTheorems
  import opened WorkXferPairing
  import opened SystemCycles

  class SimSystem<T, L> {
    const roots: seq<Module<T, L>>
    var cycle: u64

    constructor (roots: seq<Module<T, L>>)
      ensures this.roots == roots && cycle == 0
    {
      this.roots := roots;
      cycle := 0;
    }

    /** Every `Work` in order, then every `Xfer` in order, then one more cycle. */
    method Step(ghost ms: set<Module<T, L>>, ghost qs: set<SimQueue<T>>)
      returns (ghost log: seq<Event<T, L>>, ghost calls: seq<Event<T, L>>)
      requires AllSound(qs) && Closed(ms, qs) && Registered(Snap(ms, qs), roots)
      modifies this, ms, qs
      ensures AllSound(qs) && cycle == (old(cycle) + 1) % TWO_64
      ensures log == Worked(old(Snap(ms, qs)), roots).1
      ensures (Snap(ms, qs), calls) == Transferred(old(Snap(ms, qs)), roots)
    {
      log := WorkRoots(ms, qs);
      calls := XferRoots(ms, qs);
      cycle := (cycle + 1) % TWO_64;
    }

    method WorkRoots(ghost ms: set<Module<T, L>>, ghost qs: set<SimQueue<T>>) returns (ghost log: seq<Event<T, L>>)
      requires AllSound(qs) && Closed(ms, qs) && Registered(Snap(ms, qs), roots)
      modifies ms, qs
      ensures AllSound(qs)
      ensures (Snap(ms, qs), log) == WorkAll(old(Snap(ms, qs)), roots, |roots|)
    {
      hide WorkPass, WorkAll, Closed, Distinct, Built, Registered, Agree, SameRuns;
      log := [];
      ghost var start, w := Snap(ms, qs), Snap(ms, qs);
      NothingYet(start, roots);
      for i := 0 to |roots|
        invariant AllSound(qs) && Snap(ms, qs) == w && (w, log) == WorkAll(start, roots, i)
      {
        WorkAllNext(start, roots, i);
        ghost var more := roots[i].Work(ms, qs);
        w, log := Snap(ms, qs), log + more;
      }
    }

    method XferRoots(ghost ms: set<Module<T, L>>, ghost qs: set<SimQueue<T>>) returns (ghost calls: seq<Event<T, L>>)
      requires AllSound(qs) && Closed(ms, qs) && Registered(Snap(ms, qs), roots)
      modifies ms, qs
      ensures AllSound(qs)
      ensures (Snap(ms, qs), calls) == XferAll(old(Snap(ms, qs)), roots, |roots|)
    {
      hide XferPass, XferAll, Closed, Distinct, Built, Registered, Agree, SameRuns;
      calls := [];
      ghost var start, w := Snap(ms, qs), Snap(ms, qs);
      NothingYet(start, roots);
      for i := 0 to |roots|
        invariant AllSound(qs) && Snap(ms, qs) == w && (w, calls) == XferAll(start, roots, i)
      {
        XferAllNext(start, roots, i);
        ghost var more := roots[i].Xfer(ms, qs);
        w, calls := Snap(ms, qs), calls + more;
      }
    }
  }
}
