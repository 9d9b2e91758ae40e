/** Condition variables on top of the mutex. cond_wait is kept as the separate steps it is:
    unlock, enqueue, block, and, once unblocked, lock again; and so are cond_signal and each turn
    of cond_broadcast: dequeue, unblock. */
module CondVariable {
  import opened LinkedQueue
  import M = Mutex
  import P = Process

  // ---------------------------------------------------------------------------
  // The queue side, as an object

  class CondQueue {
    const waiters: Queue<P.Process>

    ghost predicate Valid()
      reads this, waiters, waiters.nodes
    {
      waiters.Valid()
    }

    constructor ()
      ensures Valid() && waiters.contents == [] && fresh(waiters)
    {
      waiters := new Queue();
    }

    /** The earliest entry is taken and its process unblocked; a killed process uses the
        signal up without anyone waking. */
    method Signal()
      requires Valid()
      modifies waiters, if waiters.contents == [] then {} else {waiters.contents[0]}
      ensures Valid()
      ensures old(waiters.contents) == [] ==> waiters.contents == []
      ensures old(waiters.contents) != [] ==>
                var p := old(waiters.contents)[0];
                && waiters.contents == old(waiters.contents)[1..]
                && p.st == if old(p.st) == P.Delete then P.Delete else P.Ready
    {
      var p := waiters.Dequeue();
      if p.Some? {
        p.value.Unblock();
      }
    }

    /** Everything that was queued is released, whatever its order or number. */
    method Broadcast()
      requires Valid()
      modifies waiters, waiters.contents
      ensures Valid() && waiters.contents == []
      ensures forall p :: p in old(waiters.contents) ==> p.st == if old(p.st) == P.Delete then P.Delete else P.Ready
    {
      ghost var procs := set p | p in waiters.contents;
      ghost var dead := set p | p in procs && p.st == P.Delete;
      ghost var released: set<P.Process> := {};
      var empty := waiters.IsEmpty();
      while !empty
        invariant Releasing(procs, dead, released) && empty == (waiters.contents == [])
        decreases |waiters.contents|
      {
        assert waiters.contents[0] in waiters.contents;
        released := ReleaseNext(procs, dead, released);
        empty := waiters.IsEmpty();
      }
    }

    /** cond_broadcast on the processes `procs`, of which `dead` were killed, has released some. */
    ghost predicate Releasing(procs: set<P.Process>, dead: set<P.Process>, released: set<P.Process>)
      reads waiters, waiters.nodes, procs, released
    {
      && waiters.Valid() && released <= procs
      && (forall p :: p in waiters.contents ==> p in procs)
      && (forall p :: p in procs ==> p in released || p in waiters.contents)
      && (forall p :: p in procs ==> (p.st.Delete? <==> p in dead))
      && (forall p :: p in released ==> p.st.Delete? || p.st.Ready?)
    }

    method ReleaseNext(ghost procs: set<P.Process>, ghost dead: set<P.Process>, ghost released: set<P.Process>)
      returns (ghost released': set<P.Process>)
      requires Releasing(procs, dead, released) && waiters.contents != []
      modifies waiters, waiters.contents[0]
      ensures Releasing(procs, dead, released')
      ensures |waiters.contents| < |old(waiters.contents)|
    {
      FirstOrRest(waiters.contents);
      released' := released + {waiters.contents[0]};
      Signal();
    }
  }

  lemma FirstOrRest<T>(s: seq<T>)
    requires s != []
    ensures s[0] in s
    ensures forall x :: x in s <==> x == s[0] || x in s[1..]
  {
    assert s == [s[0]] + s[1..];
  }

  // ---------------------------------------------------------------------------
  // Every interleaving of any number of processes on one lock and one condition variable

  type Pid = nat

  /** `t` is the number of the process's wait entry. */
  datatype Pc =
    | Outside
    | LockBlocked                 // in the queue of lock_key
    | Inside                      // holds lock_key
    | Enqueuing                   // in cond_wait, lock_key given back
    | Blocking(t: nat)            // enqueued, not yet blocked
    | Asleep(t: nat)              // has called block_process
    | RelockBlocked               // woken, in the queue of lock_key

  /** `queue` holds entry numbers, `owners[t]` the process of entry t. `duty[q]` is the entry that
      q has dequeued and whose process it has not unblocked yet; `broadcaster` is the process that
      holds the queue's mutex throughout cond_broadcast. `released` is history: the entries
      dequeued so far, in order. */
  datatype State = State(
    lock: M.Lock<Pid>, pcs: map<Pid, Pc>, blocked: set<Pid>, queue: seq<nat>, owners: seq<Pid>, released: seq<nat>,
    duty: map<Pid, nat>, broadcaster: Option<Pid>)

  datatype Event =
    | LockBy(p: Pid) | UnlockBy(p: Pid)
    | WaitBy(p: Pid) | EnqueueBy(p: Pid) | BlockBy(p: Pid) | RelockBy(p: Pid)
    | SignalBy(p: Pid) | UnblockBy(p: Pid)
    | BroadcastBy(p: Pid) | DequeueBy(p: Pid) | EndBroadcastBy(p: Pid)

  const INITIAL := State(M.Lock(false, []), map[], {}, [], [], [], map[], None)

  function PcOf(s: State, p: Pid): Pc {
    if p in s.pcs then s.pcs[p] else Outside
  }

  predicate InLockQueue(pc: Pc) {
    pc.LockBlocked? || pc.RelockBlocked?
  }

  /** Not in the middle of a signal or a broadcast. */
  predicate Idle(s: State, p: Pid) {
    p !in s.duty && s.broadcaster != Some(p)
  }

  /** A process runs the step its own code is at; only a holder unlocks or waits. While somebody
      broadcasts, nobody else gets at the queue. */
  predicate Enabled(s: State, e: Event) {
    match e
    case LockBy(p) => PcOf(s, p).Outside? && Idle(s, p)
    case UnlockBy(p) => PcOf(s, p).Inside? && Idle(s, p)
    case WaitBy(p) => PcOf(s, p).Inside? && Idle(s, p)
    case EnqueueBy(p) => PcOf(s, p).Enqueuing? && s.broadcaster == None
    case BlockBy(p) => PcOf(s, p).Blocking?
    case RelockBy(p) => PcOf(s, p).Asleep? && p !in s.blocked
    case SignalBy(p) => MaySignal(s, p)
    case BroadcastBy(p) => MaySignal(s, p)
    case UnblockBy(p) => p in s.duty && s.duty[p] < |s.owners|
    case DequeueBy(p) => s.broadcaster == Some(p) && p !in s.duty && s.queue != []
    case EndBroadcastBy(p) => s.broadcaster == Some(p) && p !in s.duty && s.queue == []
  }

  predicate MaySignal(s: State, p: Pid) {
    (PcOf(s, p).Outside? || PcOf(s, p).Inside?) && Idle(s, p) && s.broadcaster == None
  }

  function Lock(s: State, p: Pid, waiting: Pc): State {
    s.(lock := M.Acquire(s.lock, p), pcs := s.pcs[p := if s.lock.locked then waiting else Inside])
  }

  /** Giving lock_key back lets the first process in its queue through. */
  function Unlock(s: State, p: Pid, next: Pc): State {
    var pcs := s.pcs[p := next];
    s.(lock := M.Release(s.lock, {}),
       pcs := match M.Successor(s.lock, {}) case None => pcs case Some(q) => pcs[q := Inside])
  }

  function Dequeue(s: State, p: Pid): State {
    if s.queue == [] then s
    else s.(queue := s.queue[1..], released := s.released + [s.queue[0]], duty := s.duty[p := s.queue[0]])
  }

  function Step(s: State, e: Event): State
    requires Enabled(s, e)
  {
    match e
    case LockBy(p) => Lock(s, p, LockBlocked)
    case UnlockBy(p) => Unlock(s, p, Outside)
    case WaitBy(p) => Unlock(s, p, Enqueuing)
    case EnqueueBy(p) =>
      s.(queue := s.queue + [|s.owners|], owners := s.owners + [p], pcs := s.pcs[p := Blocking(|s.owners|)])
    case BlockBy(p) => s.(blocked := s.blocked + {p}, pcs := s.pcs[p := Asleep(PcOf(s, p).t)])
    case RelockBy(p) => Lock(s, p, RelockBlocked)
    case SignalBy(p) => Dequeue(s, p)
    case DequeueBy(p) => Dequeue(s, p)
    case UnblockBy(p) => s.(blocked := s.blocked - {s.owners[s.duty[p]]}, duty := s.duty - {p})
    case BroadcastBy(p) => s.(broadcaster := Some(p))
    case EndBroadcastBy(_) => s.(broadcaster := None)
  }

  ghost predicate Legal(s: State, es: seq<Event>)
    decreases |es|
  {
    es == [] || (Enabled(s, es[0]) && Legal(Step(s, es[0]), es[1..]))
  }

  ghost function After(s: State, es: seq<Event>): State
    requires Legal(s, es)
    decreases |es|
  {
    if es == [] then s else After(Step(s, es[0]), es[1..])
  }

  /** The lock queue holds exactly the processes blocked on it; the lock is held exactly by
      the one process inside. */
  ghost predicate LockFits(s: State) {
    && (forall i, j :: 0 <= i < j < |s.lock.queue| ==> s.lock.queue[i] != s.lock.queue[j])
    && (forall p :: p in s.lock.queue <==> InLockQueue(PcOf(s, p)))
    && (forall p, q :: PcOf(s, p).Inside? && PcOf(s, q).Inside? ==> p == q)
    && (s.lock.locked <==> exists p :: PcOf(s, p).Inside?)
    && (!s.lock.locked ==> s.lock.queue == [])
  }

  /** Entry t was dequeued and its process is still to be unblocked. */
  predicate Pending(s: State, t: nat) {
    exists q :: q in s.duty && s.duty[q] == t
  }

  /** The process of entry t has not left the wait it made the entry for. */
  predicate OwnerWaits(s: State, t: nat) {
    && t < |s.owners|
    && var pc := PcOf(s, s.owners[t]); (pc.Blocking? || pc.Asleep?) && pc.t == t
  }

  /** Entries leave in the order 0, 1, 2, ...: nothing is dequeued twice or out of turn. */
  predicate InTurn(s: State) {
    && |s.released| + |s.queue| == |s.owners|
    && (forall i :: 0 <= i < |s.released| ==> s.released[i] == i)
    && (forall i :: 0 <= i < |s.queue| ==> s.queue[i] == |s.released| + i)
  }

  /** An entry belongs to a process waiting on it until the process is unblocked; a process is
      runnable in cond_wait's relock only after that. */
  ghost predicate EntriesFit(s: State) {
    && InTurn(s)
    && (forall p :: PcOf(s, p).Blocking? || PcOf(s, p).Asleep? ==>
         PcOf(s, p).t < |s.owners| && s.owners[PcOf(s, p).t] == p)
    && (forall p :: p in s.blocked ==> PcOf(s, p).Asleep?)
    && (forall p :: PcOf(s, p).Asleep? && p !in s.blocked ==>
         PcOf(s, p).t < |s.released| && !Pending(s, PcOf(s, p).t))
    && (forall t :: |s.released| <= t < |s.owners| ==> OwnerWaits(s, t))
    && (forall q :: q in s.duty ==> s.duty[q] < |s.released| && OwnerWaits(s, s.duty[q]))
    && (forall q, r :: q in s.duty && r in s.duty && s.duty[q] == s.duty[r] ==> q == r)
  }

  lemma UnlockKeepsLockFits(s: State, p: Pid, next: Pc)
    requires LockFits(s) && PcOf(s, p).Inside? && !next.Inside? && !InLockQueue(next)
    ensures LockFits(Unlock(s, p, next))
  {
    var s' := Unlock(s, p, next);
    var queue := s.lock.queue;
    if queue != [] {
      assert M.SkipDead(queue, {}) == queue;
      assert s'.lock.queue == queue[1..] && PcOf(s', queue[0]).Inside?;
      forall q
        ensures q in s'.lock.queue <==> InLockQueue(PcOf(s', q))
        ensures PcOf(s', q).Inside? ==> q == queue[0]
      {
        assert PcOf(s, q).Inside? ==> q == p;
        assert q in queue <==> q == queue[0] || q in queue[1..];
      }
    }
  }

  lemma LockKeepsLockFits(s: State, p: Pid, waiting: Pc)
    requires LockFits(s) && !PcOf(s, p).Inside? && !InLockQueue(PcOf(s, p)) && InLockQueue(waiting)
    ensures LockFits(Lock(s, p, waiting))
  {
    var s' := Lock(s, p, waiting);
    if !s.lock.locked {
      assert PcOf(s', p).Inside?;
    } else {
      var h :| PcOf(s, h).Inside?;
      assert PcOf(s', h).Inside?;
    }
  }

  lemma StepKeepsLockFits(s: State, e: Event)
    requires LockFits(s) && Enabled(s, e)
    ensures LockFits(Step(s, e))
  {
    match e
    case LockBy(p) => LockKeepsLockFits(s, p, LockBlocked);
    case UnlockBy(p) => UnlockKeepsLockFits(s, p, Outside);
    case WaitBy(p) => UnlockKeepsLockFits(s, p, Enqueuing);
    case RelockBy(p) => LockKeepsLockFits(s, p, RelockBlocked);
    case _ =>
      var s' := Step(s, e);
      assert forall q :: PcOf(s', q).Inside? <==> PcOf(s, q).Inside?;
      assert forall q :: InLockQueue(PcOf(s', q)) <==> InLockQueue(PcOf(s, q));
  }

  lemma SuccessorWaits(s: State)
    ensures M.Successor(s.lock, {}).Some? ==> M.Successor(s.lock, {}).value in s.lock.queue
  {}

  /** Taking or giving back lock_key moves no process into or out of the wait, except that a
      woken one leaves it. */
  lemma LockStepsKeepEntriesFit(s: State, e: Event)
    requires LockFits(s) && EntriesFit(s) && Enabled(s, e)
    requires e.LockBy? || e.UnlockBy? || e.WaitBy? || e.RelockBy?
    ensures EntriesFit(Step(s, e))
  {
    var s' := Step(s, e);
    SuccessorWaits(s);
    forall q
      ensures PcOf(s', q) == PcOf(s, q) || !(PcOf(s', q).Blocking? || PcOf(s', q).Asleep?)
      ensures PcOf(s, q).Blocking? || PcOf(s, q).Asleep? ==> PcOf(s', q) == PcOf(s, q) || e == RelockBy(q)
    {}
    assert forall t :: Pending(s', t) <==> Pending(s, t);
    forall t: nat | OwnerWaits(s, t) && (|s.released| <= t || Pending(s, t))
      ensures OwnerWaits(s', t)
    {
      assert e != RelockBy(s.owners[t]);
    }
  }

  lemma DequeueKeepsEntriesFit(s: State, p: Pid)
    requires EntriesFit(s) && p !in s.duty
    ensures EntriesFit(Dequeue(s, p))
  {
    if s.queue != [] {
      var s' := Dequeue(s, p);
      assert s.queue[0] == |s.released|;
      assert forall q :: PcOf(s', q) == PcOf(s, q);
      forall t | Pending(s', t)
        ensures t == |s.released| || Pending(s, t)
      {}
      assert forall t :: OwnerWaits(s, t) ==> OwnerWaits(s', t);
    }
  }

  lemma UnblockKeepsEntriesFit(s: State, p: Pid)
    requires EntriesFit(s) && Enabled(s, UnblockBy(p))
    ensures EntriesFit(Step(s, UnblockBy(p)))
  {
    var s', t := Step(s, UnblockBy(p)), s.duty[p];
    assert forall q :: PcOf(s', q) == PcOf(s, q);
    forall u | Pending(s', u)
      ensures Pending(s, u) && u != t
    {}
    assert forall u :: OwnerWaits(s, u) ==> OwnerWaits(s', u);
    assert OwnerWaits(s, t);
  }

  lemma EnqueueKeepsEntriesFit(s: State, p: Pid)
    requires EntriesFit(s) && Enabled(s, EnqueueBy(p))
    ensures EntriesFit(Step(s, EnqueueBy(p)))
  {
    var s' := Step(s, EnqueueBy(p));
    assert forall q :: PcOf(s', q) == if q == p then Blocking(|s.owners|) else PcOf(s, q);
    assert forall t :: Pending(s', t) <==> Pending(s, t);
    assert forall t :: OwnerWaits(s, t) ==> OwnerWaits(s', t);
  }

  lemma BlockKeepsEntriesFit(s: State, p: Pid)
    requires EntriesFit(s) && Enabled(s, BlockBy(p))
    ensures EntriesFit(Step(s, BlockBy(p)))
  {
    var s' := Step(s, BlockBy(p));
    assert forall q :: PcOf(s', q) == if q == p then Asleep(PcOf(s, p).t) else PcOf(s, q);
    assert forall t :: Pending(s', t) <==> Pending(s, t);
    assert forall t :: OwnerWaits(s, t) ==> OwnerWaits(s', t);
  }

  lemma StepKeepsEntriesFit(s: State, e: Event)
    requires LockFits(s) && EntriesFit(s) && Enabled(s, e)
    ensures EntriesFit(Step(s, e))
  {
    match e
    case SignalBy(p) => DequeueKeepsEntriesFit(s, p);
    case DequeueBy(p) => DequeueKeepsEntriesFit(s, p);
    case UnblockBy(p) => UnblockKeepsEntriesFit(s, p);
    case EnqueueBy(p) => EnqueueKeepsEntriesFit(s, p);
    case BlockBy(p) => BlockKeepsEntriesFit(s, p);
    case BroadcastBy(_) => BroadcasterKeepsEntriesFit(s, Step(s, e).broadcaster);
    case EndBroadcastBy(_) => BroadcasterKeepsEntriesFit(s, Step(s, e).broadcaster);
    case _ => LockStepsKeepEntriesFit(s, e);
  }

  lemma BroadcasterKeepsEntriesFit(s: State, b: Option<Pid>)
    requires EntriesFit(s)
    ensures EntriesFit(s.(broadcaster := b))
  {
    var s' := s.(broadcaster := b);
    assert forall q :: PcOf(s', q) == PcOf(s, q);
    assert forall t :: Pending(s', t) <==> Pending(s, t);
    assert forall t :: OwnerWaits(s, t) ==> OwnerWaits(s', t);
  }

  lemma {:induction false} RunKeepsInv(s: State, es: seq<Event>)
    requires LockFits(s) && EntriesFit(s) && Legal(s, es)
    ensures LockFits(After(s, es)) && EntriesFit(After(s, es))
    decreases |es|
  {
    if es != [] {
      StepKeepsLockFits(s, es[0]);
      StepKeepsEntriesFit(s, es[0]);
      RunKeepsInv(Step(s, es[0]), es[1..]);
    }
  }

  predicate InWait(pc: Pc) {
    pc.Enqueuing? || pc.Blocking? || pc.Asleep? || pc.RelockBlocked?
  }

  lemma LeavingWaitHolds(s: State, e: Event, p: Pid)
    requires LockFits(s) && EntriesFit(s) && Enabled(s, e)
    requires InWait(PcOf(s, p)) && !InWait(PcOf(Step(s, e), p))
    ensures PcOf(Step(s, e), p).Inside?
    ensures PcOf(s, p).Asleep? ==> PcOf(s, p).t in s.released && !Pending(s, PcOf(s, p).t)
  {
    SuccessorWaits(s);
    if PcOf(s, p).Asleep? {
      assert e == RelockBy(p) && s.released[PcOf(s, p).t] == PcOf(s, p).t;
    }
  }

  /** In every run, a process that leaves cond_wait holds lock_key, alone, and its entry had
      been dequeued, and it unblocked, by a signal or a broadcast. */
  lemma WaitReturnsHolding(es: seq<Event>, e: Event, p: Pid)
    requires Legal(INITIAL, es) && Enabled(After(INITIAL, es), e)
    requires var s := After(INITIAL, es);
             InWait(PcOf(s, p)) && !InWait(PcOf(Step(s, e), p))
    ensures var s := After(INITIAL, es);
            var s' := Step(s, e);
            && PcOf(s', p).Inside? && s'.lock.locked
            && (forall q :: PcOf(s', q).Inside? ==> q == p)
            && (PcOf(s, p).Asleep? ==> PcOf(s, p).t in s.released && !Pending(s, PcOf(s, p).t))
  {
    RunKeepsInv(INITIAL, es);
    var s := After(INITIAL, es);
    LeavingWaitHolds(s, e, p);
    StepKeepsLockFits(s, e);
  }

  /** Entries are numbered in arrival order and dequeued in exactly that order, each at most
      once. A broadcast that ends leaves none, and has unblocked all it dequeued. */
  lemma EntriesLeaveOnceInOrder(es: seq<Event>)
    requires Legal(INITIAL, es)
    ensures var s := After(INITIAL, es);
            && s.released + s.queue == seq(|s.owners|, i => i)
            && (forall p :: Enabled(s, SignalBy(p)) || Enabled(s, DequeueBy(p)) ==>
                 Dequeue(s, p).released == s.released + if s.queue == [] then [] else [|s.released|])
            && (forall p :: Enabled(s, EndBroadcastBy(p)) ==> s.released == seq(|s.owners|, i => i) && p !in s.duty)
  {
    var s := After(INITIAL, es);
    assert InTurn(s) by {
      RunKeepsInv(INITIAL, es);
    }
    InTurnIsAll(s);
  }

  lemma InTurnIsAll(s: State)
    requires InTurn(s)
    ensures s.released + s.queue == seq(|s.owners|, i => i)
    ensures s.queue == [] ==> s.released == seq(|s.owners|, i => i)
  {
    assert s.queue == [] ==> s.released + s.queue == s.released;
  }
}
