/** The blocking mutex: a test-and-set word and a FIFO queue, with unlock handing the
    lock straight to the first waiter that has not been killed. */
module Mutex {
  import opened LinkedQueue
  import P = Process

  // ---------------------------------------------------------------------------
  // One call of mutex_lock or mutex_unlock as a function of the mutex

  datatype Lock<T> = Lock(locked: bool, queue: seq<T>)

  /** mutex_lock up to the point where the caller holds the lock or is blocked. */
  function Acquire<T>(m: Lock<T>, p: T): Lock<T> {
    if m.locked then m.(queue := m.queue + [p]) else m.(locked := true)
  }

  /** The dequeue loop of mutex_unlock: what is left once killed waiters are dropped. */
  function SkipDead<T>(queue: seq<T>, dead: set<T>): seq<T> {
    if queue != [] && queue[0] in dead then SkipDead(queue[1..], dead) else queue
  }

  function Release<T>(m: Lock<T>, dead: set<T>): Lock<T> {
    var live := SkipDead(m.queue, dead);
    if live == [] then Lock(false, []) else Lock(true, live[1..])
  }

  /** The process that wakes up holding the lock, if any. */
  function Successor<T>(m: Lock<T>, dead: set<T>): Option<T> {
    var live := SkipDead(m.queue, dead);
    if live == [] then None else Some(live[0])
  }

  /** The loop drops exactly the killed prefix. */
  lemma {:induction false} SkipDeadIsFirstLive<T>(queue: seq<T>, dead: set<T>)
    ensures var live := SkipDead(queue, dead);
            var k := |queue| - |live|;
            && 0 <= k <= |queue|
            && live == queue[k..]
            && (forall i :: 0 <= i < k ==> queue[i] in dead)
            && (live != [] ==> live[0] !in dead)
  {
    if queue != [] && queue[0] in dead {
      SkipDeadIsFirstLive(queue[1..], dead);
      var live := SkipDead(queue[1..], dead);
      forall i | 0 <= i < |queue| - |live|
        ensures queue[i] in dead
      {
        assert i > 0 ==> queue[i] == queue[1..][i - 1];
      }
    }
  }

  /** With only killed waiters, unlocking frees the mutex and empties its queue; with a
      live one it never frees it. */
  lemma ReleaseFreesIffAllDead<T>(m: Lock<T>, dead: set<T>)
    ensures !Release(m, dead).locked <==> forall p :: p in m.queue ==> p in dead
    ensures !Release(m, dead).locked ==> Release(m, dead).queue == []
  {
    SkipDeadIsFirstLive(m.queue, dead);
    var live := SkipDead(m.queue, dead);
    if live != [] {
      assert live[0] in m.queue;
    }
  }

  // ---------------------------------------------------------------------------
  // The mutex object

  class KernelMutex {
    var locked: bool
    const waiters: Queue<P.Process>

    ghost predicate Valid()
      reads this, waiters, waiters.nodes
    {
      waiters.Valid()
    }

    ghost function State(): Lock<P.Process>
      reads this, waiters
    {
      Lock(locked, waiters.contents)
    }

    constructor ()
      ensures Valid() && State() == Lock(false, []) && fresh(waiters)
    {
      locked := false;
      waiters := new Queue();
    }

    /** The caller keeps running exactly if the word was unlocked; otherwise it is queued
        and blocked in one step. */
    method LockFor(p: P.Process) returns (acquired: bool)
      requires Valid()
      modifies this, waiters, waiters.nodes, p
      ensures Valid()
      ensures State() == Acquire(old(State()), p)
      ensures acquired == !old(locked)
      ensures p.st == if acquired || old(p.st).Delete? then old(p.st) else P.Blocked
    {
      acquired := !locked;
      locked := true;
      if !acquired {
        waiters.Enqueue(p);
        p.Block();
      }
    }

    /** Dequeues until it meets a process that has not been killed, or nothing. */
    method DequeueLive(ghost dead: set<P.Process>) returns (p: Option<P.Process>)
      requires Valid()
      requires forall q :: q in waiters.contents ==> (q in dead <==> q.st == P.Delete)
      modifies waiters
      ensures Valid()
      ensures p == Successor(old(State()), dead)
      ensures waiters.contents == Release(old(State()), dead).queue
    {
      ghost var before, taken := waiters.contents, 1;
      p := waiters.Dequeue();
      while p.Some? && p.value.st == P.Delete
        invariant Valid()
        invariant p.None? ==> SkipDead(before, dead) == [] && waiters.contents == []
        invariant p.Some? ==>
            && 1 <= taken <= |before|
            && p.value == before[taken - 1]
            && waiters.contents == before[taken..]
            && SkipDead(before, dead) == SkipDead(before[taken - 1..], dead)
        decreases |waiters.contents|, p.Some?
      {
        assert before[taken - 1..][1..] == before[taken..];
        p := waiters.Dequeue();
        taken := taken + 1;
      }
    }

    method Unlock()
      requires Valid()
      modifies this, waiters, waiters.contents
      ensures Valid()
      ensures var dead := set p | p in old(waiters.contents) && old(p.st) == P.Delete;
              && State() == Release(old(State()), dead)
              && (forall p :: p in old(waiters.contents) ==>
                   p.st == if Successor(old(State()), dead) == Some(p) then P.Ready else old(p.st))
    {
      ghost var dead := set p | p in waiters.contents && p.st == P.Delete;
      var p := DequeueLive(dead);
      locked := false;
      if p.Some? {
        assert p.value !in dead && p.value in old(waiters.contents) by {
          SkipDeadIsFirstLive(old(waiters.contents), dead);
        }
        p.value.Unblock();
        locked := true;
      }
    }
  }

  // ---------------------------------------------------------------------------
  // Every interleaving of any number of processes on one mutex

  type Pid = nat

  /** Each call of mutex_lock gets the next ticket; `calls[t]` is its caller. `lock` queues
      tickets. The other fields are history: tickets in the order in which they acquired,
      the tickets acquired and not yet given back, killed processes, unlock calls so far. */
  datatype History = History(
    lock: Lock<nat>, calls: seq<Pid>, acquired: seq<nat>, holding: set<nat>, killed: set<Pid>, unlocks: nat)

  datatype Event = LockBy(p: Pid) | UnlockBy(p: Pid) | KillOf(p: Pid)

  const INITIAL := History(Lock(false, []), [], [], {}, {}, 0)

  predicate Waiting(h: History, p: Pid) {
    exists t :: t in h.lock.queue && t < |h.calls| && h.calls[t] == p
  }

  predicate Holds(h: History, p: Pid) {
    exists t :: t in h.holding && t < |h.calls| && h.calls[t] == p
  }

  /** A queued process is blocked and makes no calls. */
  predicate Enabled(h: History, e: Event) {
    e.KillOf? || !Waiting(h, e.p)
  }

  function DeadTickets(h: History): set<nat> {
    set t | t in h.lock.queue && t < |h.calls| && h.calls[t] in h.killed
  }

  function Step(h: History, e: Event): History {
    match e
    case LockBy(p) =>
      var t := |h.calls|;
      var h' := h.(lock := Acquire(h.lock, t), calls := h.calls + [p]);
      if h.lock.locked then h' else h'.(acquired := h.acquired + [t], holding := h.holding + {t})
    case UnlockBy(p) =>
      var dead := DeadTickets(h);
      var kept := set t | t in h.holding && (t < |h.calls| ==> h.calls[t] != p);
      var h' := h.(lock := Release(h.lock, dead), unlocks := h.unlocks + 1);
      (match Successor(h.lock, dead)
       case None => h'.(holding := kept)
       case Some(t) => h'.(acquired := h.acquired + [t], holding := kept + {t}))
    case KillOf(p) => h.(killed := h.killed + {p})
  }

  predicate Legal(h: History, es: seq<Event>)
    decreases |es|
  {
    es == [] || (Enabled(h, es[0]) && Legal(Step(h, es[0]), es[1..]))
  }

  function After(h: History, es: seq<Event>): History
    decreases |es|
  {
    if es == [] then h else After(Step(h, es[0]), es[1..])
  }

  predicate Increasing(s: seq<nat>) {
    forall i, j :: 0 <= i < j < |s| ==> s[i] < s[j]
  }

  predicate InOrder(acquired: seq<nat>, queue: seq<nat>) {
    && Increasing(acquired)
    && Increasing(queue)
    && (forall i, j :: 0 <= i < |acquired| && 0 <= j < |queue| ==> acquired[i] < queue[j])
  }

  /** What every run keeps, whoever unlocks. */
  ghost predicate Inv(h: History) {
    && (!h.lock.locked ==> h.lock.queue == [])
    && |h.acquired| <= h.unlocks + (if h.lock.locked then 1 else 0)
    && InOrder(h.acquired, h.lock.queue)
    && (forall i :: 0 <= i < |h.acquired| ==> h.acquired[i] < |h.calls|)
    && (forall i :: 0 <= i < |h.lock.queue| ==> h.lock.queue[i] < |h.calls|)
    && (forall t :: 0 <= t < |h.calls| && t !in h.acquired && t !in h.lock.queue ==> h.calls[t] in h.killed)
  }

  lemma {:induction false} StepKeepsInv(h: History, e: Event)
    requires Inv(h)
    ensures Inv(Step(h, e))
  {
    var h' := Step(h, e);
    match e
    case LockBy(p) =>
      forall t | 0 <= t < |h'.calls| && t !in h'.acquired && t !in h'.lock.queue
        ensures h'.calls[t] in h'.killed
      {
        assert |h.calls| in if h.lock.locked then h'.lock.queue else h'.acquired;
        assert t < |h.calls| && t !in h.acquired && t !in h.lock.queue;
      }
    case UnlockBy(p) =>
      UnlockKeepsInv(h, p);
    case KillOf(p) =>
  }

  lemma PromoteKeepsOrder(acquired: seq<nat>, queue: seq<nat>, k: nat)
    requires InOrder(acquired, queue) && k < |queue|
    ensures InOrder(acquired + [queue[k]], queue[k + 1..])
  {}

  lemma UnlockKeepsInv(h: History, p: Pid)
    requires Inv(h)
    ensures Inv(Step(h, UnlockBy(p)))
  {
    var queue, dead := h.lock.queue, DeadTickets(h);
    var h' := Step(h, UnlockBy(p));
    SkipDeadIsFirstLive(queue, dead);
    var live := SkipDead(queue, dead);
    var k := |queue| - |live|;
    if live != [] {
      assert h'.acquired == h.acquired + [queue[k]] && h'.lock.queue == queue[k + 1..];
      PromoteKeepsOrder(h.acquired, queue, k);
    }
    forall i | k <= i < |queue|
      ensures queue[i] in h'.acquired || queue[i] in h'.lock.queue
    {
      assert queue[i] == if i == k then h'.acquired[|h.acquired|] else h'.lock.queue[i - k - 1];
    }
    forall t | t in h.acquired
      ensures t in h'.acquired
    {}
  }

  lemma {:induction false} RunKeepsInv(h: History, es: seq<Event>)
    requires Inv(h)
    ensures Inv(After(h, es))
    decreases |es|
  {
    if es != [] {
      StepKeepsInv(h, es[0]);
      RunKeepsInv(Step(h, es[0]), es[1..]);
    }
  }

  /** Over every run: a free mutex has no waiters, there is at most one more acquisition
      than unlocks, and acquisitions happen in the order of the lock calls. Nobody is
      overtaken except by having been killed. */
  lemma {:induction false} FifoHandOff(es: seq<Event>)
    ensures var h := After(INITIAL, es);
            && (!h.lock.locked ==> h.lock.queue == [])
            && |h.acquired| <= h.unlocks + 1
            && Increasing(h.acquired)
            && (forall s, t :: t in h.acquired && 0 <= s < t < |h.calls| && s !in h.acquired ==>
                 h.calls[s] in h.killed)
  {
    RunKeepsInv(INITIAL, es);
  }

  // ---------------------------------------------------------------------------
  // Bounded waiting

  function Unlocks(es: seq<Event>): nat {
    if es == [] then 0 else (if es[0].UnlockBy? then 1 else 0) + Unlocks(es[1..])
  }

  /** An unlock serves a live waiter or moves it forward. */
  lemma UnlockAdvances(h: History, p: Pid, i: nat)
    requires Inv(h) && i < |h.lock.queue| && h.calls[h.lock.queue[i]] !in h.killed
    ensures var h' := Step(h, UnlockBy(p));
            || h.lock.queue[i] in h'.acquired
            || exists j :: 0 <= j < i && j < |h'.lock.queue| && h'.lock.queue[j] == h.lock.queue[i]
  {
    var queue, dead := h.lock.queue, DeadTickets(h);
    var h' := Step(h, UnlockBy(p));
    SkipDeadIsFirstLive(queue, dead);
    var k := |queue| - |SkipDead(queue, dead)|;
    assert queue[i] !in dead;
    if i == k {
      assert h'.acquired[|h.acquired|] == queue[i];
    } else {
      assert h'.lock.queue[i - k - 1] == queue[i];
    }
  }

  /** A waiter at position i that is not killed acquires within i + 1 unlocks. */
  lemma {:induction false} WaiterIsServed(h: History, es: seq<Event>, i: nat)
    requires Inv(h) && i < |h.lock.queue|
    requires h.calls[h.lock.queue[i]] !in After(h, es).killed
    requires Unlocks(es) > i
    ensures h.lock.queue[i] in After(h, es).acquired
    decreases |es|
  {
    var t := h.lock.queue[i];
    var h' := Step(h, es[0]);
    KilledAcquiredGrow(h, es[..1]);
    KilledAcquiredGrow(h', es[1..]);
    StepKeepsInv(h, es[0]);
    if es[0].UnlockBy? {
      UnlockAdvances(h, es[0].p, i);
      if t !in h'.acquired {
        var j :| 0 <= j < i && j < |h'.lock.queue| && h'.lock.queue[j] == t;
        WaiterIsServed(h', es[1..], j);
      }
    } else {
      assert h'.lock.queue[i] == t && h'.calls[t] == h.calls[t];
      WaiterIsServed(h', es[1..], i);
    }
  }

  /** A killed waiter never acquires. */
  lemma {:induction false} KilledIsSkipped(h: History, es: seq<Event>, t: nat)
    requires Inv(h) && t in h.lock.queue && h.calls[t] in h.killed
    ensures t !in After(h, es).acquired
    decreases |es|
  {
    assert t !in h.acquired;
    if es != [] {
      var h' := Step(h, es[0]);
      StepKeepsInv(h, es[0]);
      KilledStaysOut(h, es[0], t);
      if t in h'.lock.queue {
        KilledIsSkipped(h', es[1..], t);
      } else {
        GoneIsGone(h', es[1..], t);
      }
    }
  }

  lemma KilledStaysOut(h: History, e: Event, t: nat)
    requires Inv(h) && t in h.lock.queue && h.calls[t] in h.killed
    ensures var h' := Step(h, e);
            t < |h'.calls| && t !in h'.acquired && h'.calls[t] == h.calls[t] && h.killed <= h'.killed
  {
    var i :| 0 <= i < |h.lock.queue| && h.lock.queue[i] == t;
    assert t !in h.acquired;
    if e.UnlockBy? {
      SkipDeadIsFirstLive(h.lock.queue, DeadTickets(h));
      assert t in DeadTickets(h);
    }
  }

  /** A ticket that is neither queued nor acquired never comes back. */
  lemma {:induction false} GoneIsGone(h: History, es: seq<Event>, t: nat)
    requires t < |h.calls| && t !in h.lock.queue && t !in h.acquired
    ensures t !in After(h, es).acquired
    decreases |es|
  {
    if es != [] {
      SkipDeadIsFirstLive(h.lock.queue, DeadTickets(h));
      GoneIsGone(Step(h, es[0]), es[1..], t);
    }
  }

  /** So killing a process that waits keeps it out for good. */
  lemma KillKeepsOut(es: seq<Event>, p: Pid, t: nat, fs: seq<Event>)
    requires var h := After(INITIAL, es); t in h.lock.queue && t < |h.calls| && h.calls[t] == p
    ensures t !in After(Step(After(INITIAL, es), KillOf(p)), fs).acquired
  {
    var h := After(INITIAL, es);
    RunKeepsInv(INITIAL, es);
    StepKeepsInv(h, KillOf(p));
    KilledIsSkipped(Step(h, KillOf(p)), fs, t);
  }

  lemma {:induction false} KilledAcquiredGrow(h: History, es: seq<Event>)
    ensures h.killed <= After(h, es).killed
    ensures forall t :: t in h.acquired ==> t in After(h, es).acquired
    decreases |es|
  {
    if es != [] {
      KilledAcquiredGrow(Step(h, es[0]), es[1..]);
    }
  }

  // ---------------------------------------------------------------------------
  // Mutual exclusion, exactly when nobody unlocks what another one holds

  /** The caller can check it: it holds the mutex, or nobody does. */
  predicate Proper(h: History, e: Event) {
    e.UnlockBy? ==> Holds(h, e.p) || !h.lock.locked
  }

  predicate Disciplined(h: History, es: seq<Event>)
    decreases |es|
  {
    es == [] || (Enabled(h, es[0]) && Proper(h, es[0]) && Disciplined(Step(h, es[0]), es[1..]))
  }

  /** The lock word and the holder agree. */
  ghost predicate Exclusive(h: History) {
    && Inv(h)
    && (h.lock.locked ==> h.acquired != [] && h.holding == {h.acquired[|h.acquired| - 1]})
    && (!h.lock.locked ==> h.holding == {})
  }

  lemma {:induction false} DisciplinedKeepsExclusive(h: History, es: seq<Event>)
    requires Exclusive(h) && Disciplined(h, es)
    ensures Exclusive(After(h, es))
    decreases |es|
  {
    if es != [] {
      StepKeepsInv(h, es[0]);
      HandOffIsReleaseThenAcquire(h, es[0]);
      DisciplinedKeepsExclusive(Step(h, es[0]), es[1..]);
    }
  }

  /** One step of a disciplined mutex, seen from outside, is one of the moves of an abstract
      lock: nothing, free to held by the caller, or held by the caller to free, the last
      possibly followed at once by the first for the longest waiting live process. */
  lemma HandOffIsReleaseThenAcquire(h: History, e: Event)
    requires Exclusive(h) && Enabled(h, e) && Proper(h, e)
    ensures Exclusive(Step(h, e))
    ensures var h' := Step(h, e);
            match e
            case KillOf(_) => h'.holding == h.holding
            case LockBy(p) =>
              if h.holding == {} then Holds(h', p) else h'.holding == h.holding
            case UnlockBy(p) =>
              && (forall t :: t in h.holding ==> t < |h.calls| && h.calls[t] == p)
              && (h'.holding == {} ||
                  exists t :: t in h.lock.queue && h'.holding == {t} && t < |h.calls| && h.calls[t] !in h.killed)
  {
    match e
    case KillOf(p) => StepKeepsInv(h, e);
    case LockBy(p) => LockKeepsExclusive(h, p);
    case UnlockBy(p) => UnlockKeepsExclusive(h, p);
  }

  lemma LockKeepsExclusive(h: History, p: Pid)
    requires Exclusive(h)
    ensures Exclusive(Step(h, LockBy(p)))
    ensures var h' := Step(h, LockBy(p));
            if h.holding == {} then Holds(h', p) else h'.holding == h.holding
  {
    StepKeepsInv(h, LockBy(p));
    var h' := Step(h, LockBy(p));
    if h.holding == {} {
      assert |h.calls| in h'.holding && h'.calls[|h.calls|] == p;
    }
  }

  lemma UnlockKeepsExclusive(h: History, p: Pid)
    requires Exclusive(h) && Proper(h, UnlockBy(p))
    ensures Exclusive(Step(h, UnlockBy(p)))
    ensures var h' := Step(h, UnlockBy(p));
            && (forall t :: t in h.holding ==> t < |h.calls| && h.calls[t] == p)
            && (h'.holding == {} ||
                exists t :: t in h.lock.queue && h'.holding == {t} && t < |h.calls| && h.calls[t] !in h.killed)
  {
    UnlockHandsOver(h, p);
    StepKeepsInv(h, UnlockBy(p));
  }

  lemma UnlockHandsOver(h: History, p: Pid)
    requires Exclusive(h) && Proper(h, UnlockBy(p))
    ensures forall t :: t in h.holding ==> t < |h.calls| && h.calls[t] == p
    ensures var h' := Step(h, UnlockBy(p));
            match Successor(h.lock, DeadTickets(h))
            case None => h'.holding == {} && !h'.lock.locked
            case Some(t) =>
              && t in h.lock.queue && t < |h.calls| && h.calls[t] !in h.killed
              && h'.holding == {t} && h'.acquired == h.acquired + [t] && h'.lock.locked
  {
    var dead: set<nat> := DeadTickets(h);
    var kept := set u | u in h.holding && (u < |h.calls| ==> h.calls[u] != p);
    SkipDeadIsFirstLive(h.lock.queue, dead);
    assert kept == {} by {
      if h.lock.locked {
        var t :| t in h.holding && t < |h.calls| && h.calls[t] == p;
        assert h.holding == {t};
      }
    }
    match Successor(h.lock, dead)
    case None =>
    case Some(t) =>
      assert t in h.lock.queue && t !in dead && t < |h.calls|;
  }

  /** At most one process is ever inside. */
  lemma {:induction false} MutualExclusion(es: seq<Event>)
    requires Disciplined(INITIAL, es)
    ensures var h := After(INITIAL, es);
            && |h.holding| <= 1
            && (forall p, q :: Holds(h, p) && Holds(h, q) ==> p == q)
            && (h.holding == {} <==> !h.lock.locked)
  {
    DisciplinedKeepsExclusive(INITIAL, es);
  }

  /** Some disciplined continuation puts two processes inside. */
  ghost predicate Breakable(h: History) {
    exists es :: Disciplined(h, es) && |After(h, es).holding| > 1
  }

  /** After a disciplined run, an unlock leaves mutual exclusion breakable exactly if somebody
      else holds the mutex. */
  lemma ForeignUnlockBreaksIff(es: seq<Event>, p: Pid)
    requires Disciplined(INITIAL, es) && Enabled(After(INITIAL, es), UnlockBy(p))
    ensures var h := After(INITIAL, es);
            Breakable(Step(h, UnlockBy(p))) <==> h.lock.locked && !Holds(h, p)
  {
    var h := After(INITIAL, es);
    DisciplinedKeepsExclusive(INITIAL, es);
    if h.lock.locked && !Holds(h, p) {
      ForeignUnlockBreaks(h, p);
    } else {
      var h' := Step(h, UnlockBy(p));
      HandOffIsReleaseThenAcquire(h, UnlockBy(p));
      forall fs | Disciplined(h', fs)
        ensures |After(h', fs).holding| <= 1
      {
        DisciplinedKeepsExclusive(h', fs);
      }
    }
  }

  /** The holder is still inside, and the first live waiter joins it, or else the next caller. */
  lemma ForeignUnlockBreaks(h: History, p: Pid)
    requires Exclusive(h) && h.lock.locked && !Holds(h, p) && !Waiting(h, p)
    ensures Breakable(Step(h, UnlockBy(p)))
  {
    var h', holder := Step(h, UnlockBy(p)), h.acquired[|h.acquired| - 1];
    ForeignUnlockKeepsHolder(h, p);
    match Successor(h.lock, DeadTickets(h))
    case None =>
      var h2 := Step(h', LockBy(p));
      assert h2.holding == {holder, |h.calls|} && holder != |h.calls|;
      assert [LockBy(p)][1..] == [] && Disciplined(h2, []) && After(h2, []) == h2;
      assert Disciplined(h', [LockBy(p)]) && After(h', [LockBy(p)]) == h2;
    case Some(t) =>
      assert h'.holding == {holder, t};
      assert After(h', []) == h' && Disciplined(h', []);
  }

  lemma ForeignUnlockKeepsHolder(h: History, p: Pid)
    requires Exclusive(h) && h.lock.locked && !Holds(h, p)
    ensures var h', holder := Step(h, UnlockBy(p)), h.acquired[|h.acquired| - 1];
            && holder < |h.calls|
            && match Successor(h.lock, DeadTickets(h))
               case None => h'.holding == {holder} && h'.lock == Lock(false, []) && h'.calls == h.calls
               case Some(t) => h'.holding == {holder} + {t} && t != holder
  {
    var holder := h.acquired[|h.acquired| - 1];
    SkipDeadIsFirstLive(h.lock.queue, DeadTickets(h));
    assert holder in h.holding && holder < |h.calls|;
    assert (set u | u in h.holding && (u < |h.calls| ==> h.calls[u] != p)) == {holder};
    match Successor(h.lock, DeadTickets(h))
    case None =>
    case Some(t) => assert t in h.lock.queue;
  }

  /** It happens: process 1 unlocks what process 0 holds. */
  lemma ForeignUnlockAdmitsTwo()
    ensures exists es :: Legal(INITIAL, es) && |After(INITIAL, es).holding| == 2
  {
    var es := [LockBy(0), UnlockBy(1), LockBy(1)];
    var h1 := Step(INITIAL, es[0]);
    var h2 := Step(h1, es[1]);
    var h3 := Step(h2, es[2]);
    assert h1 == History(Lock(true, []), [0], [0], {0}, {}, 0);
    assert h2 == History(Lock(false, []), [0], [0], {0}, {}, 1);
    assert h3.holding == {0, 1};
    assert es[1..] == [UnlockBy(1), LockBy(1)] && es[1..][1..] == [LockBy(1)] && [LockBy(1)][1..] == [];
    assert Legal(h3, []) && Legal(h2, [LockBy(1)]) && Legal(h1, es[1..]) && Legal(INITIAL, es);
    assert After(h3, []) == h3 && After(h2, [LockBy(1)]) == h3 && After(h1, es[1..]) == h3;
    assert After(INITIAL, es) == h3;
  }
}
