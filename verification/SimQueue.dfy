/** The latency queue: its state as a value, what each operation does to it, and the object whose
    methods do it in place. */
module QueueSpec {
  import opened Words

  datatype QState<T> = QState(
    maxSize: nat, writeQ: seq<T>, readQ: seq<T>, delayQ: seq<u32>,
    latency: u32, stalled: bool, epoch: u64)

  /** What every operation keeps: delays match waiting entries and nothing exceeds the capacity. */
  predicate Sound<T>(q: QState<T>) {
    |q.writeQ| == |q.delayQ| && |q.readQ| + |q.writeQ| <= q.maxSize && q.maxSize > 0
  }

  function Fresh<T>(maxSize: nat, latency: u32): QState<T> {
    QState(maxSize, [], [], [], latency, false, 0)
  }

  predicate Full<T>(q: QState<T>) {
    |q.readQ| + |q.writeQ| >= q.maxSize
  }

  function Bump(epoch: u64): u64 {
    (epoch + 1) % TWO_64
  }

  // ---------- Work: count down, then promote ----------

  function CountDown(ds: seq<u32>): (r: seq<u32>)
    ensures |r| == |ds|
    ensures forall k :: 0 <= k < |ds| ==> r[k] == if ds[k] > 0 then ds[k] - 1 else 0
  {
    seq(|ds|, (k: int) requires 0 <= k < |ds| => if ds[k] > 0 then ds[k] - 1 else 0)
  }

  /** How many entries at the front are due. */
  function DueCount(ds: seq<u32>): (n: nat)
    ensures n <= |ds|
    ensures forall k :: 0 <= k < n ==> ds[k] == 0
    ensures n < |ds| ==> ds[n] > 0
  {
    if ds == [] || ds[0] != 0 then 0 else 1 + DueCount(ds[1..])
  }

  function Promote<T>(q: QState<T>, n: nat): QState<T>
    requires n <= |q.writeQ| && n <= |q.delayQ|
  {
    q.(readQ := q.readQ + q.writeQ[..n], writeQ := q.writeQ[n..], delayQ := q.delayQ[n..],
       epoch := if n > 0 then Bump(q.epoch) else q.epoch)
  }

  function WorkOf<T>(q: QState<T>): QState<T>
    requires |q.writeQ| == |q.delayQ|
  {
    if q.stalled then q
    else
      var counted := CountDown(q.delayQ);
      Promote(q.(delayQ := counted), DueCount(counted))
  }

  // ---------- FlushIf: a filter on entries together with their delays ----------

  function Filter<A>(s: seq<A>, keep: A -> bool): (r: seq<A>)
    ensures |r| <= |s|
  {
    if s == [] then []
    else Filter(s[..|s| - 1], keep) + if keep(s[|s| - 1]) then [s[|s| - 1]] else []
  }

  function Erase<A>(s: seq<A>, i: nat): seq<A>
    requires i < |s|
  {
    s[..i] + s[i + 1..]
  }

  lemma {:induction false} FilterNothing<A>(keep: A -> bool)
    ensures Filter([], keep) == []
  {
  }

  lemma {:induction false} FilterNext<A>(all: seq<A>, keep: A -> bool, done: nat)
    requires done < |all|
    ensures Filter(all[..done + 1], keep) ==
            Filter(all[..done], keep) + if keep(all[done]) then [all[done]] else []
  {
    assert all[..done + 1][..done] == all[..done];
  }

  /** One turn of an erasing scan: what is kept so far, then the entry looked at and the rest. */
  lemma {:induction false} EraseScan<A>(kept: seq<A>, rest: seq<A>)
    requires rest != []
    ensures (kept + rest)[|kept|] == rest[0]
    ensures Erase(kept + rest, |kept|) == kept + rest[1..]
    ensures kept + rest == (kept + [rest[0]]) + rest[1..]
  {
  }

  function Zip<T>(ws: seq<T>, ds: seq<u32>): (r: seq<(T, u32)>)
    requires |ws| == |ds|
    ensures |r| == |ws| && forall k :: 0 <= k < |r| ==> r[k] == (ws[k], ds[k])
  {
    seq(|ws|, (k: int) requires 0 <= k < |ws| => (ws[k], ds[k]))
  }

  function Entries<T>(ps: seq<(T, u32)>): (r: seq<T>)
    ensures |r| == |ps| && forall k :: 0 <= k < |r| ==> r[k] == ps[k].0
  {
    seq(|ps|, (k: int) requires 0 <= k < |ps| => ps[k].0)
  }

  function Delays<T>(ps: seq<(T, u32)>): (r: seq<u32>)
    ensures |r| == |ps| && forall k :: 0 <= k < |r| ==> r[k] == ps[k].1
  {
    seq(|ps|, (k: int) requires 0 <= k < |ps| => ps[k].1)
  }

  function SparedPair<T>(doomed: T -> bool): ((T, u32)) -> bool {
    (p: (T, u32)) => !doomed(p.0)
  }

  function Spared<T>(doomed: T -> bool): T -> bool {
    (x: T) => !doomed(x)
  }

  lemma {:induction false} EraseBoth<T>(ps: seq<(T, u32)>, i: nat)
    requires i < |ps|
    ensures Entries(Erase(ps, i)) == Entries(ps)[..i] + Entries(ps)[i + 1..]
    ensures Delays(Erase(ps, i)) == Delays(ps)[..i] + Delays(ps)[i + 1..]
  {
  }

  lemma {:induction false} ZipApart<T>(ws: seq<T>, ds: seq<u32>)
    requires |ws| == |ds|
    ensures Entries(Zip(ws, ds)) == ws && Delays(Zip(ws, ds)) == ds
  {
  }

  function FlushOf<T>(q: QState<T>, doomed: T -> bool): QState<T>
    requires |q.writeQ| == |q.delayQ|
  {
    var waiting := Filter(Zip(q.writeQ, q.delayQ), SparedPair(doomed));
    var visible := Filter(q.readQ, Spared(doomed));
    q.(writeQ := Entries(waiting), delayQ := Delays(waiting), readQ := visible,
       epoch := if |visible| < |q.readQ| then Bump(q.epoch) else q.epoch)
  }

  // ---------- Any operation, any run ----------

  datatype Op<!T> =
    | Write(x: T) | Read | Work | FlushIf(doomed: T -> bool)
    | SetLatency(latency: u32) | SetStall(stalled: bool) | InitMaxSize(maxSize: nat) | Reset

  /** The operation's own assertion; when it fails the call throws and the queue is untouched. */
  predicate Accepts<T>(q: QState<T>, op: Op<T>) {
    match op
    case Write(_) => !Full(q)
    case Read => q.readQ != []
    case InitMaxSize(n) => n > 0 && |q.readQ| + |q.writeQ| <= n
    case _ => true
  }

  function Apply<T>(q: QState<T>, op: Op<T>): (r: QState<T>)
    requires Sound(q)
    ensures Sound(r)
  {
    if !Accepts(q, op) then q
    else
      match op
      case Write(x) => q.(writeQ := q.writeQ + [x], delayQ := q.delayQ + [q.latency])
      case Read => q.(readQ := q.readQ[1..], epoch := Bump(q.epoch))
      case Work => WorkOf(q)
      case FlushIf(doomed) => FlushOf(q, doomed)
      case SetLatency(n) => q.(latency := n)
      case SetStall(b) => q.(stalled := b)
      case InitMaxSize(n) => q.(maxSize := n)
      case Reset => q.(writeQ := [], readQ := [], delayQ := [], stalled := false, epoch := 0)
  }

  function Run<T>(q: QState<T>, ops: seq<Op<T>>): (r: QState<T>)
    requires Sound(q)
    ensures Sound(r)
  {
    if ops == [] then q else Apply(Run(q, ops[..|ops| - 1]), ops[|ops| - 1])
  }
}

module SimQueues {
  import opened Words
  import W = Wrappers
  import opened QueueSpec

  class SimQueue<T> {
    var maxQSize: nat
    var writeQ: seq<T>
    var readQ: seq<T>
    var delayQ: seq<u32>
    var latency: u32
    var stalled: bool
    var visibleEpoch: u64

    function State(): QState<T>
      reads this
    {
      QState(maxQSize, writeQ, readQ, delayQ, latency, stalled, visibleEpoch)
    }

    constructor (maxSize: nat, latency: u32)
      requires maxSize > 0
      ensures State() == Fresh(maxSize, latency)
    {
      maxQSize, this.latency := maxSize, latency;
      writeQ, readQ, delayQ, stalled, visibleEpoch := [], [], [], false, 0;
    }

    method Work()
      requires Sound(State())
      modifies this
      ensures State() == Apply(old(State()), Op.Work)
    {
      if stalled {
        return;
      }
      CountDownDelays();
      var promoted := PromoteDue();
      if promoted {
        visibleEpoch := (visibleEpoch + 1) % TWO_64;
      }
    }

    method CountDownDelays()
      modifies `delayQ
      ensures delayQ == CountDown(old(delayQ))
    {
      for k := 0 to |delayQ|
        invariant |delayQ| == |old(delayQ)|
        invariant forall j :: 0 <= j < |delayQ| ==>
                    delayQ[j] == if j < k then CountDown(old(delayQ))[j] else old(delayQ)[j]
      {
        if delayQ[k] > 0 {
          delayQ := delayQ[k := delayQ[k] - 1];
        }
      }
    }

    method PromoteDue() returns (promoted: bool)
      requires |writeQ| == |delayQ|
      modifies `readQ, `writeQ, `delayQ
      ensures
        var n := DueCount(old(delayQ));
        && readQ == old(readQ) + old(writeQ)[..n]
        && writeQ == old(writeQ)[n..] && delayQ == old(delayQ)[n..]
        && promoted == (n > 0)
    {
      promoted := false;
      ghost var n := 0;
      while |writeQ| != 0
        invariant n <= DueCount(old(delayQ))
        invariant readQ == old(readQ) + old(writeQ)[..n]
        invariant writeQ == old(writeQ)[n..] && delayQ == old(delayQ)[n..]
        invariant promoted == (n > 0)
        decreases |writeQ|
      {
        if delayQ[0] != 0 {
          break;
        }
        assert old(writeQ)[..n + 1] == old(writeQ)[..n] + [old(writeQ)[n]];
        assert old(writeQ)[n..][1..] == old(writeQ)[n + 1..] && old(delayQ)[n..][1..] == old(delayQ)[n + 1..];
        readQ := readQ + [writeQ[0]];
        writeQ := writeQ[1..];
        delayQ := delayQ[1..];
        promoted := true;
        n := n + 1;
      }
    }

    method Reset()
      requires Sound(State())
      modifies this
      ensures State() == Apply(old(State()), Op.Reset)
    {
      writeQ, readQ, delayQ := [], [], [];
      stalled, visibleEpoch := false, 0;
    }

    method SetLatency(n: u32)
      requires Sound(State())
      modifies this
      ensures State() == Apply(old(State()), Op.SetLatency(n))
    {
      latency := n;
    }

    method SetStall(b: bool)
      requires Sound(State())
      modifies this
      ensures State() == Apply(old(State()), Op.SetStall(b))
    {
      stalled := b;
    }

    method InitMaxSize(maxSize: nat) returns (ok: bool)
      requires Sound(State())
      modifies this
      ensures ok == Accepts(old(State()), Op.InitMaxSize(maxSize))
      ensures State() == Apply(old(State()), Op.InitMaxSize(maxSize))
    {
      ok := maxSize > 0 && |readQ| + |writeQ| <= maxSize;
      if ok {
        maxQSize := maxSize;
      }
    }

    /** `ok` is false where the assertion of `SimQueue::Write` fails. */
    method Write(x: T) returns (ok: bool)
      requires Sound(State())
      modifies this
      ensures ok == !Full(old(State()))
      ensures State() == Apply(old(State()), Op.Write(x))
    {
      ok := |readQ| + |writeQ| < maxQSize;
      if ok {
        writeQ := writeQ + [x];
        delayQ := delayQ + [latency];
      }
    }

    method Read() returns (x: W.Option<T>)
      requires Sound(State())
      modifies this
      ensures x == if old(readQ) == [] then W.None else W.Some(old(readQ)[0])
      ensures State() == Apply(old(State()), Op.Read)
    {
      if |readQ| == 0 {
        return W.None;
      }
      x := W.Some(readQ[0]);
      readQ := readQ[1..];
      visibleEpoch := (visibleEpoch + 1) % TWO_64;
    }

    method Pop() returns (ok: bool)
      requires Sound(State())
      modifies this
      ensures ok == (old(readQ) != [])
      ensures State() == Apply(old(State()), Op.Read)
    {
      ok := |readQ| != 0;
      if ok {
        readQ := readQ[1..];
        visibleEpoch := (visibleEpoch + 1) % TWO_64;
      }
    }

    method FlushIf(doomed: T -> bool) returns (removed: nat)
      requires Sound(State())
      modifies this
      ensures State() == Apply(old(State()), Op.FlushIf(doomed))
      ensures removed == |old(readQ)| + |old(writeQ)| - |readQ| - |writeQ|
    {
      removed := FlushWaiting(doomed);
      var removedVisible := FlushVisible(doomed);
      removed := removed + removedVisible;
      if removedVisible > 0 {
        visibleEpoch := (visibleEpoch + 1) % TWO_64;
      }
    }

    /** Erases by index from both queues at once, without moving on after an erase. */
    method FlushWaiting(doomed: T -> bool) returns (removed: nat)
      requires |writeQ| == |delayQ|
      modifies `writeQ, `delayQ
      ensures
        var kept := Filter(Zip(old(writeQ), old(delayQ)), SparedPair(doomed));
        writeQ == Entries(kept) && delayQ == Delays(kept)
      ensures removed == |old(writeQ)| - |writeQ|
    {
      hide Filter, Zip, Entries, Delays;
      ghost var pairs := Zip(writeQ, delayQ);
      ghost var kept, done := [], 0;
      removed := 0;
      var i := 0;
      ZipApart(writeQ, delayQ);
      FilterNothing(SparedPair(doomed));
      assert pairs[..0] == [] && kept + pairs[0..] == pairs;
      while i < |writeQ|
        invariant done <= |pairs| && i == |kept|
        invariant kept == Filter(pairs[..done], SparedPair(doomed))
        invariant writeQ == Entries(kept + pairs[done..]) && delayQ == Delays(kept + pairs[done..])
        invariant removed == done - |kept|
        decreases |pairs| - done
      {
        FilterNext(pairs, SparedPair(doomed), done);
        var erased := ScanWaiting(doomed, i, kept, pairs[done..]);
        assert pairs[done..][1..] == pairs[done + 1..];
        if erased {
          removed := removed + 1;
        } else {
          kept := kept + [pairs[done]];
          i := i + 1;
        }
        done := done + 1;
      }
      assert pairs[..done] == pairs && kept + pairs[done..] == kept;
    }

    /** One turn of the scan: erase entry i with its delay, or step over it. */
    method ScanWaiting(doomed: T -> bool, i: nat, ghost kept: seq<(T, u32)>, ghost rest: seq<(T, u32)>)
      returns (erased: bool)
      requires i == |kept| && rest != []
      requires writeQ == Entries(kept + rest) && delayQ == Delays(kept + rest)
      modifies `writeQ, `delayQ
      ensures erased == doomed(rest[0].0)
      ensures
        var kept' := if erased then kept else kept + [rest[0]];
        writeQ == Entries(kept' + rest[1..]) && delayQ == Delays(kept' + rest[1..])
    {
      EraseScan(kept, rest);
      erased := doomed(writeQ[i]);
      if erased {
        EraseBoth(kept + rest, i);
        writeQ := writeQ[..i] + writeQ[i + 1..];
        delayQ := delayQ[..i] + delayQ[i + 1..];
      }
    }

    method FlushVisible(doomed: T -> bool) returns (removed: nat)
      modifies `readQ
      ensures readQ == Filter(old(readQ), Spared(doomed))
      ensures removed == |old(readQ)| - |readQ|
    {
      hide Filter;
      ghost var all := readQ;
      ghost var kept, rest, done := [], all, 0;
      removed := 0;
      var i := 0;
      FilterNothing(Spared(doomed));
      assert all[..0] == [];
      while i < |readQ|
        invariant done <= |all| && rest == all[done..] && i == |kept|
        invariant kept == Filter(all[..done], Spared(doomed))
        invariant readQ == kept + rest
        invariant removed == |all| - |readQ|
        decreases |rest|
      {
        FilterNext(all, Spared(doomed), done);
        EraseScan(kept, rest);
        if doomed(readQ[i]) {
          readQ := readQ[..i] + readQ[i + 1..];
          removed := removed + 1;
        } else {
          kept := kept + [rest[0]];
          i := i + 1;
        }
        rest, done := rest[1..], done + 1;
      }
      assert all[..done] == all;
    }
  }
}
