/** thread_pool: workers that take messages off the shared queue until each has taken a terminate message, and the
    destructor that posts these and waits for the workers. A run is a sequence of steps of the threads. */
module ThreadPool {
  import opened Schema
  import opened CircularQueue

  datatype Msg = Log(id: nat) | Flush(id: nat) | Terminate

  datatype Policy = Block | OverrunOldest | DiscardNew

  /** A worker waits for a message, handles message number k, or has left its loop. */
  datatype Worker = Idle | Busy(k: nat) | Stopped

  /** The destructor has not started, has posted n terminate messages, or has joined all workers. */
  datatype Phase = Open | Closing(n: nat) | Joined

  /** All messages pushed so far are numbered; those before base have left the queue, each taken by the worker in
      got or lost to an overrun. */
  datatype Pool = Pool(
    cap: nat,
    pushed: seq<Msg>,
    base: nat,
    workers: seq<Worker>,
    phase: Phase,
    got: map<nat, nat>,
    lost: set<nat>,
    processed: set<nat>)
  {
    function Queue(): seq<Msg>
      requires base <= |pushed|
    {
      pushed[base..]
    }
  }

  datatype Step =
    | Post(policy: Policy, msg: Msg)
    | Take(w: nat)
    | Handle(w: nat)
    | Close
    | PostTerminate
    | Join

  function Start(cap: nat, n: nat): Pool {
    Pool(cap, [], 0, seq(n, _ => Idle), Open, map[], {}, {})
  }

  /** The queue operations of a push under each policy, in terms of the message numbers. */
  function Push(p: Pool, m: Msg): Pool {
    p.(pushed := p.pushed + [m])
  }

  function PushOver(p: Pool, m: Msg): Pool
    requires p.base <= |p.pushed|
  {
    if |p.Queue()| == p.cap then p.(pushed := p.pushed + [m], lost := p.lost + {p.base}, base := p.base + 1)
    else Push(p, m)
  }

  /** Stepped under OverrunOldest, the queue is what the ring buffer leaves. */
  lemma PushOverIsRing(p: Pool, m: Msg)
    requires p.base <= |p.pushed| && |p.Queue()| <= p.cap
    ensures PushOver(p, m).base <= |PushOver(p, m).pushed|
    ensures PushOver(p, m).Queue() == Newest(p.Queue() + [m], p.cap)
  {
    assert (p.pushed + [m])[p.base..] == p.Queue() + [m];
  }

  /** One step of some thread; None while the thread has to wait. */
  function Next(p: Pool, s: Step): Option<Pool>
    requires p.base <= |p.pushed|
  {
    match s
    case Post(policy, m) =>
      if p.phase.Joined? || m.Terminate? then None
      else
        (match policy
         case Block => if |p.Queue()| < p.cap then Some(Push(p, m)) else None
         case OverrunOldest => Some(PushOver(p, m))
         case DiscardNew => if |p.Queue()| < p.cap then Some(Push(p, m)) else Some(p))
    case Take(w) =>
      if w < |p.workers| && p.workers[w].Idle? && p.Queue() != [] then
        var q := p.(base := p.base + 1, got := p.got[p.base := w]);
        Some(q.(workers := p.workers[w := if p.Queue()[0].Terminate? then Stopped else Busy(p.base)]))
      else None
    case Handle(w) =>
      if w < |p.workers| && p.workers[w].Busy? then
        Some(p.(workers := p.workers[w := Idle], processed := p.processed + {p.workers[w].k}))
      else None
    case Close => if p.phase.Open? then Some(p.(phase := Closing(0))) else None
    case PostTerminate =>
      if p.phase.Closing? && p.phase.n < |p.workers| && |p.Queue()| < p.cap then
        Some(Push(p, Terminate).(phase := Closing(p.phase.n + 1)))
      else None
    case Join =>
      if p.phase.Closing? && p.phase.n == |p.workers| && forall w | 0 <= w < |p.workers| :: p.workers[w].Stopped? then
        Some(p.(phase := Joined))
      else None
  }

  /** An overrunning post finds the queue full and a terminate message in front, which it pushes out. */
  predicate DropsStop(p: Pool, s: Step)
    requires p.base <= |p.pushed|
  {
    s.Post? && s.policy.OverrunOldest? && p.Queue() != [] && |p.Queue()| == p.cap && p.Queue()[0].Terminate?
  }

  // ---- Counting -------------------------------------------------------------------------------------------------

  function Terminates(ms: seq<Msg>): nat {
    if ms == [] then 0 else Terminates(ms[..|ms|-1]) + (if ms[|ms|-1].Terminate? then 1 else 0)
  }

  function StoppedOf(ws: seq<Worker>): nat {
    if ws == [] then 0 else StoppedOf(ws[..|ws|-1]) + (if ws[|ws|-1].Stopped? then 1 else 0)
  }

  function BusyOf(ws: seq<Worker>): nat {
    if ws == [] then 0 else BusyOf(ws[..|ws|-1]) + (if ws[|ws|-1].Busy? then 1 else 0)
  }

  lemma {:induction false} CountWorker(ws: seq<Worker>, w: nat, x: Worker)
    requires w < |ws|
    ensures StoppedOf(ws[w := x]) == StoppedOf(ws) - (if ws[w].Stopped? then 1 else 0) + (if x.Stopped? then 1 else 0)
    ensures BusyOf(ws[w := x]) == BusyOf(ws) - (if ws[w].Busy? then 1 else 0) + (if x.Busy? then 1 else 0)
  {
    var front, us := ws[..|ws|-1], ws[w := x];
    if w < |ws| - 1 {
      CountWorker(front, w, x);
      assert us[..|us|-1] == front[w := x];
    } else {
      assert us[..|us|-1] == front;
    }
  }

  lemma {:induction false} StoppedAll(ws: seq<Worker>)
    ensures StoppedOf(ws) <= |ws|
    ensures StoppedOf(ws) == |ws| <==> forall w :: 0 <= w < |ws| ==> ws[w].Stopped?
  {
    if ws != [] { StoppedAll(ws[..|ws|-1]); }
  }

  lemma {:induction false} TerminatesAppend(a: seq<Msg>, b: seq<Msg>)
    ensures Terminates(a + b) == Terminates(a) + Terminates(b)
  {
    if b == [] {
      assert a + b == a;
    } else {
      assert (a + b)[..|a + b|-1] == a + b[..|b|-1];
      TerminatesAppend(a, b[..|b|-1]);
    }
  }

  lemma {:induction false} TerminatesAt(ms: seq<Msg>, i: nat)
    requires i < |ms| && ms[i].Terminate?
    ensures Terminates(ms) > 0
  {
    if i < |ms| - 1 { TerminatesAt(ms[..|ms|-1], i); }
  }

  // ---- What every run keeps ----------------------------------------------------------------------------------------

  /** Message k, which has left the queue, was lost, or was taken and is processed or being handled, or told its worker to stop. */
  ghost predicate Accounted(p: Pool, k: nat)
    requires k < |p.pushed|
  {
    if k in p.lost then k !in p.got && !p.pushed[k].Terminate?
    else
      k in p.got && p.got[k] < |p.workers| &&
      if p.pushed[k].Terminate? then p.workers[p.got[k]].Stopped? && k !in p.processed
      else if k in p.processed then p.workers[p.got[k]] != Busy(k) else p.workers[p.got[k]] == Busy(k)
  }

  /** A worker that has stopped took exactly one terminate message, one that has not took none. */
  ghost predicate OneStop(p: Pool, w: nat)
    requires w < |p.workers|
  {
    if p.workers[w].Stopped? then StopsOnce(p, w) else forall j :: !StopsAt(p, w, j)
  }

  ghost predicate StopsOnce(p: Pool, w: nat) {
    exists k :: StopsAt(p, w, k) && forall j :: StopsAt(p, w, j) ==> j == k
  }

  ghost predicate StopsAt(p: Pool, w: nat, k: nat) {
    k < |p.pushed| && k in p.got && p.got[k] == w && p.pushed[k].Terminate?
  }

  ghost predicate Inv(p: Pool) {
    && p.base <= |p.pushed| <= p.base + p.cap
    && (forall k :: k in p.got || k in p.lost || k in p.processed ==> k < p.base)
    && (forall k :: 0 <= k < p.base ==> Accounted(p, k))
    && (forall w :: 0 <= w < |p.workers| ==> OneStop(p, w))
    && (forall w :: 0 <= w < |p.workers| && p.workers[w].Busy? ==> HoldsOwn(p, w))
    && Terminates(p.pushed[..p.base]) == StoppedOf(p.workers)
    && (match p.phase
        case Open => Terminates(p.pushed) == 0
        case Closing(n) => n <= |p.workers| && Terminates(p.pushed) == n
        case Joined => Terminates(p.pushed) == |p.workers| && StoppedOf(p.workers) == |p.workers|)
  }

  ghost predicate HoldsOwn(p: Pool, w: nat)
    requires w < |p.workers| && p.workers[w].Busy?
  {
    var k := p.workers[w].k; k < p.base && k in p.got && p.got[k] == w && k !in p.processed
  }

  lemma StartInv(cap: nat, n: nat)
    ensures Inv(Start(cap, n))
  {
    AllIdle(n);
  }

  lemma {:induction false} AllIdle(n: nat)
    ensures StoppedOf(seq(n, _ => Idle)) == 0 && BusyOf(seq(n, _ => Idle)) == 0
  {
    if n > 0 {
      var m: nat := n - 1;
      AllIdle(m);
      assert seq(n, _ => Idle)[..m] == seq(m, _ => Idle);
    }
  }

  lemma PushCounts(p: Pool, m: Msg)
    requires p.base <= |p.pushed|
    ensures Terminates(p.pushed + [m]) == Terminates(p.pushed) + (if m.Terminate? then 1 else 0)
    ensures (p.pushed + [m])[..p.base] == p.pushed[..p.base]
  {
    TerminatesAppend(p.pushed, [m]);
    assert [m][..0] == [];
  }

  lemma PushInv(p: Pool, m: Msg, q: Pool)
    requires Inv(p) && |p.Queue()| < p.cap && !p.phase.Joined?
    requires if m.Terminate? then p.phase.Closing? && p.phase.n < |p.workers| && q == Push(p, m).(phase := Closing(p.phase.n + 1))
             else q == Push(p, m)
    ensures Inv(q)
  {
    PushCounts(p, m);
    hide Terminates, StoppedOf;
    forall k | 0 <= k < q.base ensures Accounted(q, k) { assert Accounted(p, k); }
    forall w | 0 <= w < |q.workers| ensures OneStop(q, w) { StopKept(p, q, w); }
    forall w | 0 <= w < |q.workers| && q.workers[w].Busy? ensures HoldsOwn(q, w) { assert HoldsOwn(p, w); }
  }

  /** A worker's stops depend only on what was taken. */
  lemma StopKept(p: Pool, q: Pool, w: nat)
    requires w < |p.workers| == |q.workers| && OneStop(p, w) && q.workers[w] == p.workers[w]
    requires forall k :: StopsAt(q, w, k) <==> StopsAt(p, w, k)
    ensures OneStop(q, w)
  {
    hide StopsAt;
  }

  lemma OverInv(p: Pool, m: Msg)
    requires Inv(p) && !p.phase.Joined? && !m.Terminate?
    requires p.Queue() != [] && |p.Queue()| == p.cap ==> !p.Queue()[0].Terminate?
    ensures Inv(PushOver(p, m))
  {
    if |p.Queue()| < p.cap {
      PushInv(p, m, Push(p, m));
    } else {
      var q := PushOver(p, m);
      PushCounts(p, m);
      assert !q.pushed[p.base].Terminate?;
      LeftCounts(q.pushed, p.base);
      hide Terminates, StoppedOf, Accounted, OneStop, HoldsOwn;
      forall k | 0 <= k < q.base ensures Accounted(q, k) { OverKeeps(p, m, k); }
      forall w | 0 <= w < |q.workers| ensures OneStop(q, w) && (q.workers[w].Busy? ==> HoldsOwn(q, w)) { OverWorker(p, m, w); }
    }
  }

  lemma OverKeeps(p: Pool, m: Msg, k: nat)
    requires Inv(p) && |p.Queue()| == p.cap && k <= p.base && !(p.pushed + [m])[p.base].Terminate?
    ensures k < |PushOver(p, m).pushed| && Accounted(PushOver(p, m), k)
  {
    hide Terminates, StoppedOf, OneStop, HoldsOwn;
    if k < p.base { assert Accounted(p, k); }
  }

  lemma OverWorker(p: Pool, m: Msg, w: nat)
    requires Inv(p) && |p.Queue()| == p.cap && w < |p.workers|
    ensures OneStop(PushOver(p, m), w) && (p.workers[w].Busy? ==> HoldsOwn(PushOver(p, m), w))
  {
    hide Terminates, StoppedOf, Accounted;
    StopKept(p, PushOver(p, m), w);
  }

  lemma TerminatesOne(m: Msg)
    ensures Terminates([m]) == if m.Terminate? then 1 else 0
  {
    assert [m][..0] == [];
  }

  lemma TakeInv(p: Pool, w: nat)
    requires Inv(p) && Next(p, Take(w)).Some?
    ensures Inv(Next(p, Take(w)).value)
  {
    hide Terminates, StoppedOf, BusyOf, Accounted, OneStop, HoldsOwn;
    var q := Next(p, Take(w)).value;
    CountWorker(p.workers, w, if p.pushed[p.base].Terminate? then Stopped else Busy(p.base));
    LeftCounts(p.pushed, p.base);
    if p.phase.Joined? { StoppedAll(p.workers); }
    forall k | 0 <= k < q.base ensures Accounted(q, k) {
      if k < p.base { TakeKeeps(p, w, k); } else { TakeNew(p, w); }
    }
    forall v | 0 <= v < |q.workers| ensures OneStop(q, v) {
      if v != w { TakeOther(p, w, v); } else { TakeStops(p, w); }
    }
    forall v | 0 <= v < |q.workers| && q.workers[v].Busy? ensures HoldsOwn(q, v) { TakeHolds(p, w, v); }
  }

  lemma TakeNew(p: Pool, w: nat)
    requires Inv(p) && Next(p, Take(w)).Some?
    ensures Accounted(Next(p, Take(w)).value, p.base)
  {
    hide Terminates, StoppedOf;
  }

  lemma TakeOther(p: Pool, w: nat, v: nat)
    requires Inv(p) && Next(p, Take(w)).Some? && v < |p.workers| && v != w
    ensures OneStop(Next(p, Take(w)).value, v)
  {
    hide Terminates, StoppedOf, OneStop;
    StopKept(p, Next(p, Take(w)).value, v);
  }

  lemma TakeHolds(p: Pool, w: nat, v: nat)
    requires Inv(p) && Next(p, Take(w)).Some? && v < |p.workers| && Next(p, Take(w)).value.workers[v].Busy?
    ensures HoldsOwn(Next(p, Take(w)).value, v)
  {
    hide Terminates, StoppedOf, OneStop, Accounted;
    if v != w { assert HoldsOwn(p, v); }
  }

  lemma TakeKeeps(p: Pool, w: nat, k: nat)
    requires Inv(p) && Next(p, Take(w)).Some? && k < p.base
    ensures Accounted(Next(p, Take(w)).value, k)
  {
    assert Accounted(p, k);
  }

  lemma TakeStops(p: Pool, w: nat)
    requires Inv(p) && Next(p, Take(w)).Some?
    ensures OneStop(Next(p, Take(w)).value, w)
  {
    hide Terminates, StoppedOf;
    var q := Next(p, Take(w)).value;
    assert OneStop(p, w);
    assert forall k: nat :: StopsAt(q, w, k) <==> StopsAt(p, w, k) || (k == p.base && p.pushed[k].Terminate?);
    if p.pushed[p.base].Terminate? { assert StopsAt(q, w, p.base); }
  }

  lemma HandleInv(p: Pool, w: nat)
    requires Inv(p) && Next(p, Handle(w)).Some?
    ensures Inv(Next(p, Handle(w)).value)
  {
    var q := Next(p, Handle(w)).value;
    CountWorker(p.workers, w, Idle);
    assert HoldsOwn(p, w);
    hide Terminates, StoppedOf, BusyOf;
    forall k | 0 <= k < q.base ensures Accounted(q, k) { HandleKeeps(p, w, k); }
    forall v | 0 <= v < |q.workers| ensures OneStop(q, v) {
      assert OneStop(p, v);
      if v != w { StopKept(p, q, v); } else { assert forall k: nat :: StopsAt(q, v, k) <==> StopsAt(p, v, k); }
    }
    forall v | 0 <= v < |q.workers| && q.workers[v].Busy? ensures HoldsOwn(q, v) {
      assert HoldsOwn(p, v);
    }
  }

  lemma HandleKeeps(p: Pool, w: nat, k: nat)
    requires Inv(p) && Next(p, Handle(w)).Some? && k < p.base
    ensures Accounted(Next(p, Handle(w)).value, k)
  {
    hide Terminates, StoppedOf;
    assert HoldsOwn(p, w);
    assert Accounted(p, k);
    assert Accounted(p, p.workers[w].k);
  }

  /** Every step that does not push a terminate message out keeps the invariant. */
  lemma StepInv(p: Pool, s: Step)
    requires Inv(p) && !DropsStop(p, s) && Next(p, s).Some?
    ensures Inv(Next(p, s).value)
  {
    var q := Next(p, s).value;
    match s {
      case Post(policy, m) =>
        if policy.OverrunOldest? {
          OverInv(p, m);
        } else if |p.Queue()| < p.cap {
          PushInv(p, m, q);
        }
      case Take(w) => TakeInv(p, w);
      case Handle(w) => HandleInv(p, w);
      case Close => PhaseInv(p, q);
      case PostTerminate => PushInv(p, Terminate, q);
      case Join =>
        StoppedAll(p.workers);
        PhaseInv(p, q);
    }
  }

  lemma PhaseInv(p: Pool, q: Pool)
    requires Inv(p) && q == p.(phase := q.phase)
    requires (q.phase == Closing(0) && p.phase.Open?)
      || (q.phase.Joined? && p.phase == Closing(|p.workers|) && StoppedOf(p.workers) == |p.workers|)
    ensures Inv(q)
  {
    hide Terminates, StoppedOf;
    forall k | 0 <= k < q.base ensures Accounted(q, k) { assert Accounted(p, k); }
    forall w | 0 <= w < |q.workers| ensures OneStop(q, w) { StopKept(p, q, w); }
    forall w | 0 <= w < |q.workers| && q.workers[w].Busy? ensures HoldsOwn(q, w) { assert HoldsOwn(p, w); }
  }

  /** Where a sequence of steps leads, if every step is possible. */
  function Runs(p: Pool, steps: seq<Step>): (r: Option<Pool>)
    ensures r.Some? ==> r.value.base <= |r.value.pushed|
    decreases |steps|
  {
    if p.base > |p.pushed| then None
    else if steps == [] then Some(p)
    else
      var q := Next(p, steps[0]);
      if q.None? then None else Runs(q.value, steps[1..])
  }

  /** No step of the run pushes a terminate message out. */
  ghost predicate DropsNone(p: Pool, steps: seq<Step>)
    requires Runs(p, steps).Some?
    decreases |steps|
  {
    steps == [] || (!DropsStop(p, steps[0]) && DropsNone(Next(p, steps[0]).value, steps[1..]))
  }

  lemma {:induction false} RunKeeps(p: Pool, steps: seq<Step>)
    requires Runs(p, steps).Some?
    ensures |Runs(p, steps).value.workers| == |p.workers| && Runs(p, steps).value.cap == p.cap
    decreases |steps|
  {
    if steps != [] { RunKeeps(Next(p, steps[0]).value, steps[1..]); }
  }

  lemma {:induction false} RunInv(p: Pool, steps: seq<Step>)
    requires Inv(p) && Runs(p, steps).Some? && DropsNone(p, steps)
    ensures Inv(Runs(p, steps).value)
    decreases |steps|
  {
    hide Inv, DropsStop;
    if steps != [] {
      StepInv(p, steps[0]);
      RunInv(Next(p, steps[0]).value, steps[1..]);
    }
  }

  /** When as many terminate messages have left the queue as were ever pushed, none is left in it. */
  lemma AllTaken(p: Pool, t: nat)
    requires p.base <= |p.pushed| && Terminates(p.pushed[..p.base]) == Terminates(p.pushed)
    requires t < |p.pushed| && p.pushed[t].Terminate?
    ensures t < p.base
  {
    assert p.pushed == p.pushed[..p.base] + p.pushed[p.base..];
    TerminatesAppend(p.pushed[..p.base], p.pushed[p.base..]);
    if t >= p.base { TerminatesAt(p.pushed[p.base..], t - p.base); }
  }

  // ---- The destructor comes to an end ----------------------------------------------------------------------------------

  /** What is left to do once the destructor runs. */
  function Work(p: Pool): int
    requires p.base <= |p.pushed|
  {
    (if p.phase.Closing? then 3 * (|p.workers| - p.phase.n) else 0) + 2 * |p.Queue()| + BusyOf(p.workers)
  }

  predicate PoolStep(s: Step) {
    s.Take? || s.Handle? || s.PostTerminate?
  }

  /** The queue can hold a message, or there is no worker to send one to. */
  predicate Roomy(p: Pool) {
    p.cap > 0 || |p.workers| == 0
  }

  /** While the destructor is not done and the queue can hold a message, some thread of the pool can go on, or the
      workers can be joined. */
  lemma ShutdownProgress(p: Pool)
    requires Inv(p) && p.phase.Closing?
    ensures Roomy(p) ==> Next(p, Join).Some? || exists s :: PoolStep(s) && Next(p, s).Some?
  {
    if Roomy(p) { RoomyProgress(p); }
  }

  lemma RoomyProgress(p: Pool)
    requires Inv(p) && p.phase.Closing? && Roomy(p)
    ensures Next(p, Join).Some? || exists s :: PoolStep(s) && Next(p, s).Some?
  {
    StoppedAll(p.workers);
    if w :| 0 <= w < |p.workers| && p.workers[w].Busy? {
      assert PoolStep(Handle(w)) && Next(p, Handle(w)).Some?;
    } else if w: nat :| w < |p.workers| && p.workers[w].Idle? {
      if p.Queue() != [] {
        assert PoolStep(Take(w)) && Next(p, Take(w)).Some?;
      } else {
        assert p.pushed[..p.base] == p.pushed;
        assert PoolStep(PostTerminate) && Next(p, PostTerminate).Some?;
      }
    } else {
      AllPosted(p);
      assert Next(p, Join).Some?;
    }
  }

  lemma AllPosted(p: Pool)
    requires Inv(p) && p.phase.Closing? && forall w :: 0 <= w < |p.workers| ==> p.workers[w].Stopped?
    ensures p.phase.n == |p.workers|
  {
    StoppedAll(p.workers);
    assert p.pushed == p.pushed[..p.base] + p.pushed[p.base..];
    TerminatesAppend(p.pushed[..p.base], p.pushed[p.base..]);
  }

  /** Each such step leaves less to do, so without further posts the destructor returns. */
  lemma ShutdownEnds(p: Pool, s: Step)
    requires Inv(p) && p.phase.Closing? && PoolStep(s) && Next(p, s).Some?
    ensures var q := Next(p, s).value; q.base <= |q.pushed| && 0 <= Work(q) < Work(p)
  {
    match s {
      case Take(w) => CountWorker(p.workers, w, if p.Queue()[0].Terminate? then Stopped else Busy(p.base));
      case Handle(w) => CountWorker(p.workers, w, Idle);
      case PostTerminate => assert (p.pushed + [Terminate])[p.base..] == p.Queue() + [Terminate];
    }
  }

  // ---- The condition on posts is exact ----------------------------------------------------------------------------------

  /** Until the destructor starts there is no terminate message to push out. */
  lemma OpenDropsNone(p: Pool, s: Step)
    requires Inv(p) && p.phase.Open?
    ensures !DropsStop(p, s)
  {
    if DropsStop(p, s) { TerminatesAt(p.pushed, p.base); }
  }

  /** More terminate messages have left the queue than workers have stopped, and no more will come than there are workers. */
  ghost predicate Doomed(p: Pool) {
    && p.base <= |p.pushed| && p.phase.Closing? && p.phase.n <= |p.workers|
    && Terminates(p.pushed) == p.phase.n && StoppedOf(p.workers) < Terminates(p.pushed[..p.base])
  }

  lemma LeftCounts(pushed: seq<Msg>, base: nat)
    requires base < |pushed|
    ensures Terminates(pushed[..base+1]) == Terminates(pushed[..base]) + (if pushed[base].Terminate? then 1 else 0)
  {
    assert pushed[..base+1] == pushed[..base] + [pushed[base]];
    TerminatesAppend(pushed[..base], [pushed[base]]);
    TerminatesOne(pushed[base]);
  }

  lemma LeftAtMost(pushed: seq<Msg>, base: nat)
    requires base <= |pushed|
    ensures Terminates(pushed[..base]) <= Terminates(pushed)
  {
    assert pushed == pushed[..base] + pushed[base..];
    TerminatesAppend(pushed[..base], pushed[base..]);
  }

  /** Pushing a terminate message out dooms the destructor. */
  lemma DropDooms(p: Pool, s: Step)
    requires Inv(p) && DropsStop(p, s) && Next(p, s).Some?
    ensures Doomed(Next(p, s).value)
  {
    if p.phase.Open? { OpenDropsNone(p, s); }
    PushCounts(p, s.msg);
    LeftCounts(p.pushed + [s.msg], p.base);
    hide Terminates;
  }

  lemma DoomedStep(p: Pool, s: Step)
    requires Doomed(p) && Next(p, s).Some?
    ensures Doomed(Next(p, s).value)
  {
    hide Terminates, StoppedOf, BusyOf;
    match s {
      case Post(policy, m) =>
        PushCounts(p, m);
        LeftCounts(p.pushed + [m], p.base);
      case Take(w) =>
        LeftCounts(p.pushed, p.base);
        CountWorker(p.workers, w, if p.Queue()[0].Terminate? then Stopped else Busy(p.base));
      case Handle(w) => CountWorker(p.workers, w, Idle);
      case Close =>
      case PostTerminate => PushCounts(p, Terminate);
      case Join =>
        LeftAtMost(p.pushed, p.base);
        StoppedAll(p.workers);
    }
  }

  /** Once a terminate message has been pushed out the destructor waits for ever, whatever the threads do. */
  lemma {:induction false} NeverJoins(p: Pool, steps: seq<Step>)
    requires Doomed(p) && Runs(p, steps).Some?
    ensures Doomed(Runs(p, steps).value) && !Runs(p, steps).value.phase.Joined?
    decreases |steps|
  {
    hide Doomed, Next;
    if steps != [] {
      DoomedStep(p, steps[0]);
      NeverJoins(Next(p, steps[0]).value, steps[1..]);
    }
    DoomedFacts(Runs(p, steps).value);
  }

  lemma DoomedFacts(p: Pool)
    requires Doomed(p)
    ensures p.base <= |p.pushed| && p.phase.Closing?
  {
  }

  /** A run that has pushed a terminate message out ends doomed. */
  lemma {:induction false} DropEndsDoomed(p: Pool, steps: seq<Step>)
    requires Inv(p) && Runs(p, steps).Some? && !DropsNone(p, steps)
    ensures Doomed(Runs(p, steps).value)
    decreases |steps|
  {
    hide Inv, Doomed, DropsStop, Next;
    var q := Next(p, steps[0]).value;
    if DropsStop(p, steps[0]) {
      DropDooms(p, steps[0]);
      NeverJoins(q, steps[1..]);
    } else {
      StepInv(p, steps[0]);
      DropEndsDoomed(q, steps[1..]);
    }
  }

  /** So a run in which the destructor comes to join has pushed none out. */
  lemma JoinedDropsNone(p: Pool, steps: seq<Step>)
    requires Inv(p) && Runs(p, steps).Some? && Runs(p, steps).value.phase.Joined?
    ensures DropsNone(p, steps)
  {
    hide Inv, Doomed, Runs, DropsNone;
    if !DropsNone(p, steps) {
      DropEndsDoomed(p, steps);
      DoomedFacts(Runs(p, steps).value);
    }
  }

  /** After the destructor has joined the workers, each of them has taken exactly one terminate message; and every
      message pushed before some terminate message was processed, or lost to an overrun. */
  lemma JoinedMeansDone(cap: nat, n: nat, steps: seq<Step>)
    requires Runs(Start(cap, n), steps).Some? && Runs(Start(cap, n), steps).value.phase.Joined?
    ensures var p := Runs(Start(cap, n), steps).value;
      && |p.workers| == n
      && (forall w | 0 <= w < n :: StopsOnce(p, w))
      && (forall k, t | 0 <= k < t < |p.pushed| && p.pushed[t].Terminate? && !p.pushed[k].Terminate? ::
            k in p.processed || k in p.lost)
      && Terminates(p.pushed) == n
  {
    var p0 := Start(cap, n);
    StartInv(cap, n);
    JoinedDropsNone(p0, steps);
    RunKeeps(p0, steps);
    RunInv(p0, steps);
    var p := Runs(p0, steps).value;
    hide Runs, DropsNone;
    StoppedAll(p.workers);
    forall w | 0 <= w < n ensures StopsOnce(p, w) {
      assert OneStop(p, w);
    }
    forall k, t | 0 <= k < t < |p.pushed| && p.pushed[t].Terminate? && !p.pushed[k].Terminate?
      ensures k in p.processed || k in p.lost
    {
      AllTaken(p, t);
      assert Accounted(p, k);
    }
  }

  // ---- A queue without capacity -----------------------------------------------------------------------------------------

  /** Nothing ever gets into a queue for no items, not even a terminate message. */
  ghost predicate Walled(p: Pool) {
    && p.cap == 0 && p.base == |p.pushed| && |p.workers| > 0
    && (p.phase.Open? || p.phase == Closing(0))
  }

  /** A pool whose queue is for no items never shuts down: the first terminate message waits for room for ever. */
  lemma {:induction false} ZeroCapacityHangs(p: Pool, steps: seq<Step>)
    requires Walled(p) && Runs(p, steps).Some?
    ensures Walled(Runs(p, steps).value) && !Runs(p, steps).value.phase.Joined?
    decreases |steps|
  {
    if steps != [] {
      WalledStep(p, steps[0]);
      hide Next, Walled;
      ZeroCapacityHangs(Next(p, steps[0]).value, steps[1..]);
    }
  }

  lemma WalledStep(p: Pool, s: Step)
    requires Walled(p) && p.base <= |p.pushed| && Next(p, s).Some?
    ensures Walled(Next(p, s).value)
  {
  }

  // ---- When the destructor returns ----------------------------------------------------------------------------------------

  /** The threads of the pool and the destructor, left to themselves, can come to the end of the shutdown that way. */
  ghost predicate ShutsDown(p: Pool, more: seq<Step>) {
    && (forall s | s in more :: PoolStep(s) || s.Join?)
    && Runs(p, more).Some? && Runs(p, more).value.phase.Joined?
  }

  lemma {:induction false} CanShutDown(p: Pool) returns (more: seq<Step>)
    requires Inv(p) && p.phase.Closing? && Roomy(p)
    ensures ShutsDown(p, more)
    decreases Work(p)
  {
    hide Inv, Work;
    InvBase(p);
    RoomyProgress(p);
    if Next(p, Join).Some? {
      more := [Join];
      RunsNone(Next(p, Join).value);
      RunsCons(p, Join, []);
    } else {
      var s :| PoolStep(s) && Next(p, s).Some?;
      NoDropByPool(p, s);
      StepInv(p, s);
      ShutdownEnds(p, s);
      var rest := CanShutDown(Next(p, s).value);
      more := [s] + rest;
      RunsCons(p, s, rest);
    }
  }

  lemma InvBase(p: Pool)
    requires Inv(p)
    ensures p.base <= |p.pushed|
  {
  }

  lemma NoDropByPool(p: Pool, s: Step)
    requires p.base <= |p.pushed| && PoolStep(s) && p.phase.Closing? && Next(p, s).Some?
    ensures !DropsStop(p, s) && Next(p, s).value.phase.Closing?
    ensures Roomy(p) ==> Roomy(Next(p, s).value)
  {
  }

  /** Exactly when the destructor can return. Whatever has happened before and while it posts: if the pool, left to
      itself, can still come to the join, and only then, the queue has room for a message (or there is no worker) and
      no post has pushed a terminate message out. Otherwise no continuation at all comes to the join. */
  lemma ShutdownExact(cap: nat, n: nat, steps: seq<Step>)
    requires Runs(Start(cap, n), steps).Some? && Runs(Start(cap, n), steps).value.phase.Closing?
    ensures var p := Runs(Start(cap, n), steps).value;
      && ((exists more :: ShutsDown(p, more)) <==> (n == 0 || cap > 0) && DropsNone(Start(cap, n), steps))
      && ((exists more :: Joins(p, more)) ==> exists more :: ShutsDown(p, more))
  {
    var p0, p := Start(cap, n), Runs(Start(cap, n), steps).value;
    StartInv(cap, n);
    RunKeeps(p0, steps);
    hide Runs, Next, Inv, DropsNone;
    if (n == 0 || cap > 0) && DropsNone(p0, steps) {
      RunInv(p0, steps);
      var more := CanShutDown(p);
    } else {
      forall more ensures !Joins(p, more) && !ShutsDown(p, more) {
        NoWayToJoin(cap, n, steps, more);
      }
    }
  }

  ghost predicate Joins(p: Pool, more: seq<Step>) {
    Runs(p, more).Some? && Runs(p, more).value.phase.Joined?
  }

  lemma NoWayToJoin(cap: nat, n: nat, steps: seq<Step>, more: seq<Step>)
    requires Runs(Start(cap, n), steps).Some?
    requires !((n == 0 || cap > 0) && DropsNone(Start(cap, n), steps))
    ensures !Joins(Runs(Start(cap, n), steps).value, more)
  {
    var p0, p := Start(cap, n), Runs(Start(cap, n), steps).value;
    StartInv(cap, n);
    hide Runs, Next, Inv, DropsNone, Doomed;
    if Runs(p, more).Some? {
      if !DropsNone(p0, steps) {
        DropEndsDoomed(p0, steps);
        NeverJoins(p, more);
      } else {
        ZeroCapacityHangs(p0, steps);
        ZeroCapacityHangs(p, more);
      }
    }
  }

  /** It does happen: an overrunning post during shutdown can push a terminate message out, and
      then the destructor waits for ever: it cannot join, and no thread of the pool can go on. */
  lemma OverrunHangsShutdown()
    ensures var steps := [Close, PostTerminate, Post(OverrunOldest, Log(0)), Take(0), Handle(0)];
      && Runs(Start(1, 1), steps).Some?
      && Next(Runs(Start(1, 1), steps).value, Join).None?
      && forall s | PoolStep(s) :: Next(Runs(Start(1, 1), steps).value, s).None?
  {
    var p0 := Start(1, 1);
    assert p0.workers == [Idle];
    var p1 := p0.(phase := Closing(0));
    assert Next(p0, Close) == Some(p1);
    hide Next, Start;
    var p2 := Pool(1, [Terminate], 0, [Idle], Closing(1), map[], {}, {});
    var p3 := Pool(1, [Terminate, Log(0)], 1, [Idle], Closing(1), map[], {0}, {});
    var p4 := Pool(1, [Terminate, Log(0)], 2, [Busy(1)], Closing(1), map[1 := 0], {0}, {});
    var p5 := Pool(1, [Terminate, Log(0)], 2, [Idle], Closing(1), map[1 := 0], {0}, {1});
    HangPost(p1, p2);
    HangOver(p2, p3);
    HangTake(p3, p4);
    HangHandle(p4, p5);
    RunsCons(p4, Handle(0), []);
    RunsCons(p3, Take(0), [Handle(0)]);
    RunsCons(p2, Post(OverrunOldest, Log(0)), [Take(0), Handle(0)]);
    RunsCons(p1, PostTerminate, [Post(OverrunOldest, Log(0)), Take(0), Handle(0)]);
    RunsCons(p0, Close, [PostTerminate, Post(OverrunOldest, Log(0)), Take(0), Handle(0)]);
    RunsNone(p5);
    assert Runs(p0, [Close, PostTerminate, Post(OverrunOldest, Log(0)), Take(0), Handle(0)]) == Some(p5);
    HangingState(p5);
  }

  lemma HangPost(p: Pool, q: Pool)
    requires p == Pool(1, [], 0, [Idle], Closing(0), map[], {}, {}) && q == Pool(1, [Terminate], 0, [Idle], Closing(1), map[], {}, {})
    ensures Next(p, PostTerminate) == Some(q)
  {
    assert [] + [Terminate] == [Terminate] && p.Queue() == [];
  }

  lemma HangOver(p: Pool, q: Pool)
    requires p == Pool(1, [Terminate], 0, [Idle], Closing(1), map[], {}, {})
    requires q == Pool(1, [Terminate, Log(0)], 1, [Idle], Closing(1), map[], {0}, {})
    ensures Next(p, Post(OverrunOldest, Log(0))) == Some(q)
  {
    assert [Terminate] + [Log(0)] == [Terminate, Log(0)] && {} + {0} == {0} && p.Queue() == [Terminate];
  }

  lemma HangTake(p: Pool, q: Pool)
    requires p == Pool(1, [Terminate, Log(0)], 1, [Idle], Closing(1), map[], {0}, {})
    requires q == Pool(1, [Terminate, Log(0)], 2, [Busy(1)], Closing(1), map[1 := 0], {0}, {})
    ensures Next(p, Take(0)) == Some(q)
  {
    assert p.Queue() == [Log(0)] && [Idle][0 := Busy(1)] == [Busy(1)];
  }

  lemma HangHandle(p: Pool, q: Pool)
    requires p == Pool(1, [Terminate, Log(0)], 2, [Busy(1)], Closing(1), map[1 := 0], {0}, {})
    requires q == Pool(1, [Terminate, Log(0)], 2, [Idle], Closing(1), map[1 := 0], {0}, {1})
    ensures Next(p, Handle(0)) == Some(q)
  {
    assert [Busy(1)][0 := Idle] == [Idle] && {} + {1} == {1};
  }

  lemma HangingState(p: Pool)
    requires p.base == |p.pushed| && p.workers == [Idle] && p.phase == Closing(1)
    ensures Next(p, Join).None? && forall s | PoolStep(s) :: Next(p, s).None?
  {
    assert !p.workers[0].Stopped?;
  }

  lemma RunsCons(p: Pool, s: Step, rest: seq<Step>)
    requires p.base <= |p.pushed| && Next(p, s).Some?
    ensures Runs(p, [s] + rest) == Runs(Next(p, s).value, rest)
  {
    assert ([s] + rest)[1..] == rest;
    hide Next;
  }

  lemma RunsNone(p: Pool)
    requires p.base <= |p.pushed|
    ensures Runs(p, []) == Some(p)
  {
  }
}
