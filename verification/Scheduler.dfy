/** The round-robin scheduler: a circular list of processes that skips blocked ones, unlinks
    killed ones while it walks, and keeps `prev` one step behind `current`. */
module Scheduler {
  import opened Common
  import P = Process

  // ---------------------------------------------------------------------------
  // The walk of set_next_current, on the ring written out from `current`

  function FirstRunnable<T>(ring: seq<T>, idle: set<T>): (k: nat)
    ensures k <= |ring|
  {
    if ring == [] || ring[0] !in idle then 0 else 1 + FirstRunnable(ring[1..], idle)
  }

  function Alive<T>(ring: seq<T>, dead: set<T>): seq<T> {
    if ring == [] then []
    else
      var n := |ring| - 1;
      Alive(ring[..n], dead) + if ring[n] in dead then [] else [ring[n]]
  }

  /** The ring afterwards: it starts at the first runnable process, and of those passed over
      the killed ones are gone and the blocked ones follow in their old order. */
  function NextRing<T>(ring: seq<T>, blocked: set<T>, dead: set<T>): seq<T> {
    var k := FirstRunnable(ring, blocked + dead);
    ring[k..] + Alive(ring[..k], dead)
  }

  ghost predicate HasRunnable<T>(ring: seq<T>, idle: set<T>) {
    exists x :: x in ring && x !in idle
  }

  lemma {:induction false} FirstRunnableIsFirst<T>(ring: seq<T>, idle: set<T>)
    ensures var k := FirstRunnable(ring, idle);
            && (forall i :: 0 <= i < k ==> ring[i] in idle)
            && (k < |ring| ==> ring[k] !in idle)
            && (HasRunnable(ring, idle) <==> k < |ring|)
  {
    if ring != [] && ring[0] in idle {
      FirstRunnableIsFirst(ring[1..], idle);
      var k := FirstRunnable(ring[1..], idle);
      forall i | 0 <= i < k + 1
        ensures ring[i] in idle
      {
        assert i > 0 ==> ring[i] == ring[1..][i - 1];
      }
      if HasRunnable(ring, idle) {
        var x :| x in ring && x !in idle;
        assert x in ring[1..];
      }
      if k < |ring[1..]| {
        assert ring[k + 1] in ring;
      }
    }
  }

  // ---------------------------------------------------------------------------
  // The scheduler object

  class Node {
    var quantum: int
    const p: P.Process
    var next: Node?

    constructor (p: P.Process)
      ensures this.p == p && quantum == QUANTUM
    {
      this.p := p;
      quantum := QUANTUM;
      next := null;
    }
  }

  const QUANTUM: int := 1

  ghost predicate Linked(r: seq<Node>)
    reads r`next
  {
    && (forall i, j :: 0 <= i < j < |r| ==> r[i] != r[j])
    && (forall i, j :: 0 <= i < j < |r| && j == i + 1 ==> r[i].next == r[j])
    && (r != [] ==> r[|r| - 1].next == r[0])
  }

  /** The ring, closed, from `current`; `prev` is the node before it, except that after a first
      add_process to a ring of one it is still `current` itself. */
  class ProcessRing {
    var current: Node?
    var prev: Node?
    var superlock: bool
    var destroyed: seq<P.Process>
    ghost var ring: seq<Node>

    ghost predicate Valid()
      reads this`current, this`prev, this`ring, ring`next
    {
      && Linked(ring)
      && (ring == [] ==> current == null)
      && (ring != [] ==> current == ring[0] && (prev == ring[|ring| - 1] || prev == ring[0]))
    }

    ghost predicate Settled()
      reads this`current, this`prev, this`ring, ring`next
    {
      Valid() && ring != [] && prev == ring[|ring| - 1]
    }

    constructor ()
      ensures Valid() && ring == [] && destroyed == [] && !superlock
    {
      current, prev, superlock := null, null, false;
      destroyed, ring := [], [];
    }

    /** New processes come right after the current one. */
    method AddProcess(p: P.Process)
      requires Valid()
      modifies this, ring`next
      ensures Valid() && !superlock && destroyed == old(destroyed)
      ensures |ring| == |old(ring)| + 1
      ensures old(ring) == [] ==> fresh(ring[0]) && ring[0].p == p && ring[0].quantum == QUANTUM
      ensures old(ring) != [] ==>
                && fresh(ring[1]) && ring[1].p == p && ring[1].quantum == QUANTUM
                && ring == [old(ring)[0], ring[1]] + old(ring)[1..]
                && prev == old(prev)
    {
      var node := new Node(p);
      superlock := true;
      if current == null {
        current := node;
        node.next := node;
        prev := node;
        ring := [node];
      } else {
        assert |ring| > 1 ==> ring[0].next == ring[1];
        node.next := current.next;
        current.next := node;
        ring := [ring[0], node] + ring[1..];
      }
      superlock := false;
    }

    /** Moves both pointers one node on. */
    method PassCurrent()
      requires Valid() && ring != []
      modifies this
      ensures Settled() && ring == Rotate(old(ring))
      ensures destroyed == old(destroyed) && superlock == old(superlock)
    {
      assert |ring| > 1 ==> ring[0].next == ring[1];
      prev := current;
      current := current.next;
      ring := ring[1..] + [ring[0]];
    }

    /** Unlinks a killed process and destroys it. */
    method UnlinkCurrent()
      requires Settled() && |ring| > 1
      modifies this, prev`next
      ensures Settled() && ring == old(ring)[1..]
      ensures destroyed == old(destroyed) + [old(ring)[0].p] && superlock == old(superlock)
    {
      var next := current.next;
      assert ring[0].next == ring[1];
      prev.next := next;
      destroyed := destroyed + [current.p];
      current := next;
      ring := ring[1..];
    }

    /** The loop of set_next_current, begun on `before`, has passed j nodes; `gone` had been
        destroyed before. */
    ghost predicate Walking(before: seq<Node>, j: nat, dead: set<Node>, gone: seq<P.Process>)
      requires j < |before|
      reads this`current, this`prev, this`ring, this`destroyed, ring`next
    {
      && Settled() && current == before[j] && prev in before
      && ring == Walked(before, j, dead)
      && destroyed == gone + Killed(before, j, dead)
    }

    /** One round of the loop. */
    method WalkOne(ghost before: seq<Node>, ghost j: nat, ghost dead: set<Node>, ghost gone: seq<P.Process>)
      requires j + 1 < |before| && Walking(before, j, dead, gone)
      requires current.p.st.Delete? <==> current in dead
      modifies this, prev`next
      ensures Walking(before, j + 1, dead, gone) && superlock == old(superlock)
    {
      WalkOn(before, j, dead);
      assert destroyed + [before[j].p] == gone + (Killed(before, j, dead) + [before[j].p]);
      if current.p.st.Delete? {
        UnlinkCurrent();
      } else {
        PassCurrent();
      }
    }

    /** The whole loop, when the first runnable process is k nodes ahead. */
    method WalkTo(ghost k: nat, ghost dead: set<Node>)
      requires Settled() && k < |ring| && P.Runnable(ring[k].p.st)
      requires forall i :: 0 <= i < k ==> !P.Runnable(ring[i].p.st)
      requires forall n :: n in ring ==> (n in dead <==> n.p.st.Delete?)
      modifies this, ring`next
      ensures Settled() && ring == Walked(old(ring), k, dead) && current == old(ring)[k]
      ensures destroyed == old(destroyed) + Killed(old(ring), k, dead)
      ensures superlock == old(superlock)
    {
      ghost var before, j, gone := ring, 0, destroyed;
      while P.IsBlocked(current.p.st) || current.p.st.Delete?
        invariant 0 <= j <= k && Walking(before, j, dead, gone) && superlock == old(superlock)
        decreases k - j
      {
        assert j < k;
        WalkOne(before, j, dead, gone);
        j := j + 1;
      }
    }

    /** set_next_current stops, at the first runnable process in ring order; it has destroyed
        exactly the killed processes it passed and left a closed ring with prev before current. */
    method SetNextCurrent(ghost blocked: set<Node>, ghost dead: set<Node>)
      requires Settled() && HasRunnable(ring, blocked + dead)
      requires forall n :: n in ring ==> (n in dead <==> n.p.st.Delete?) && (n in blocked <==> P.IsBlocked(n.p.st))
      modifies this, ring`next
      ensures Settled()
      ensures ring == NextRing(old(ring), blocked, dead)
      ensures P.Runnable(current.p.st) && current in old(ring)
      ensures destroyed == old(destroyed) +
                Killed(old(ring), FirstRunnable(old(ring), blocked + dead), dead)
      ensures superlock == old(superlock)
    {
      FirstRunnableIsFirst(ring, blocked + dead);
      ghost var k := FirstRunnable(ring, blocked + dead);
      WalkedInFull(ring, k, dead);
      WalkTo(k, dead);
    }

    /** What the sets say is what the status fields say. */
    ghost predicate Reflects(blocked: set<Node>, dead: set<Node>)
      reads this`ring, set n | n in ring :: n.p
    {
      forall n :: n in ring ==> (n in dead <==> n.p.st.Delete?) && (n in blocked <==> P.IsBlocked(n.p.st))
    }

    /** The switch itself: the walk starts at the node after the current one. */
    method SwitchProcess(ghost blocked: set<Node>, ghost dead: set<Node>)
      requires Valid() && ring != [] && HasRunnable(ring, blocked + dead) && Reflects(blocked, dead)
      modifies this, ring`next
      ensures Settled() && P.Runnable(current.p.st) && superlock == old(superlock)
      ensures ring == NextRing(Rotate(old(ring)), blocked, dead)
      ensures destroyed == old(destroyed) +
                Killed(Rotate(old(ring)), FirstRunnable(Rotate(old(ring)), blocked + dead), dead)
    {
      RotateKeepsMembers(ring, blocked + dead);
      PassCurrent();
      SetNextCurrent(blocked, dead);
    }

    /** next_process, on every timer tick and yield: the current process runs on while it has
        quantum left or the superlock is set. */
    method NextProcess(ghost blocked: set<Node>, ghost dead: set<Node>) returns (switched: bool)
      requires Valid() && Reflects(blocked, dead)
      requires ring != [] && ring[0].quantum <= 1 && !superlock ==> HasRunnable(ring, blocked + dead)
      modifies this, ring`next, ring`quantum
      ensures Valid() && superlock == old(superlock)
      ensures switched == old(ring != [] && ring[0].quantum <= 1 && !superlock)
      ensures !switched ==> ring == old(ring) && prev == old(prev) && destroyed == old(destroyed)
      ensures forall i :: 0 <= i < |old(ring)| ==>
                var n := old(ring)[i];
                n.quantum == if i > 0 then old(n.quantum) else if switched then QUANTUM else old(n.quantum) - 1
      ensures switched ==>
                && Settled() && P.Runnable(current.p.st) && old(ring) != []
                && ring == NextRing(Rotate(old(ring)), blocked, dead)
                && destroyed == old(destroyed) +
                     Killed(Rotate(old(ring)), FirstRunnable(Rotate(old(ring)), blocked + dead), dead)
    {
      switched := false;
      if current == null {
        return;
      }
      current.quantum := current.quantum - 1;
      if current.quantum > 0 || superlock {
        return;
      }
      superlock := true;
      current.quantum := QUANTUM;
      SwitchProcess(blocked, dead);
      superlock := false;
      switched := true;
    }

    /** yield_process up to the interrupt: what is left of the current quantum goes to the next
        node, so that NextProcess is bound to switch unless the superlock is set. */
    method YieldProcess()
      requires Valid() && ring != []
      modifies ring`quantum
      ensures Valid() && ring[0].quantum == 0
      ensures |ring| > 1 ==> ring[1].quantum == old(ring[1].quantum) + 1
      ensures forall i :: 1 < i < |ring| ==> ring[i].quantum == old(ring[i].quantum)
    {
      assert |ring| > 1 ==> ring[0].next == ring[1];
      current.next.quantum := current.next.quantum + 1;
      current.quantum := 0;
    }

    /** The unlinking in end_process. With a stale prev the store changes nothing and the node
        stays in the ring. */
    method DetachCurrent()
      requires Valid() && |ring| > 1
      modifies this, prev`next
      ensures Settled() && ring == Detached(old(ring), old(Settled()))
      ensures destroyed == old(destroyed) && superlock == old(superlock)
    {
      assert ring[0].next == ring[1];
      prev.next := current.next;
      current := current.next;
      ring := if prev == ring[|ring| - 1] then ring[1..] else Rotate(ring);
    }

    /** Destroys the current process and walks to the next runnable one. */
    method ReplaceCurrent(ghost left: seq<Node>, ghost blocked: set<Node>, ghost dead: set<Node>)
      requires Valid() && |ring| > 1 && HasRunnable(ring[1..], blocked + dead) && Reflects(blocked, dead)
      requires left == Detached(ring, Settled())
      modifies this, ring`next
      ensures Settled() && P.Runnable(current.p.st) && current in old(ring) && superlock == old(superlock)
      ensures ring == NextRing(left, blocked, dead)
      ensures destroyed == old(destroyed) + [old(ring)[0].p] +
                Killed(left, FirstRunnable(left, blocked + dead), dead)
    {
      DetachedKeepsMembers(ring, Settled(), blocked + dead);
      destroyed := destroyed + [current.p];
      DetachCurrent();
      SetNextCurrent(blocked, dead);
    }

    method SetSuperlock(to: bool)
      modifies this`superlock
      ensures superlock == to
      ensures Settled() == old(Settled()) && Valid() == old(Valid())
    {
      superlock := to;
    }

    method AssignQuantum()
      requires current != null
      modifies current`quantum
      ensures current.quantum == old(current.quantum) + 1
      ensures Settled() == old(Settled())
    {
      current.quantum := current.quantum + 1;
    }

    /** end_process: the current process is destroyed, the walk picks the next one, and that one
        gets an extra quantum. */
    method EndProcess(ghost left: seq<Node>, ghost blocked: set<Node>, ghost dead: set<Node>)
      requires Valid() && |ring| > 1 && HasRunnable(ring[1..], blocked + dead) && Reflects(blocked, dead)
      requires left == Detached(ring, Settled())
      modifies this, ring
      ensures Settled() && P.Runnable(current.p.st) && !superlock
      ensures forall n :: n in old(ring) ==> n.quantum == old(n.quantum) + if n == current then 1 else 0
      ensures ring == NextRing(left, blocked, dead)
      ensures destroyed == old(destroyed) + [old(ring)[0].p] +
                Killed(left, FirstRunnable(left, blocked + dead), dead)
    {
      SetSuperlock(true);
      ReplaceCurrent(left, blocked, dead);
      SetSuperlock(false);
      AssignQuantum();
    }
  }

  /** The ring left by the unlinking in end_process. */
  function Detached<T>(ring: seq<T>, settled: bool): seq<T>
    requires ring != []
  {
    if settled then ring[1..] else Rotate(ring)
  }

  function Rotate<T>(ring: seq<T>): seq<T>
    requires ring != []
  {
    ring[1..] + [ring[0]]
  }

  lemma DetachedKeepsMembers<T>(ring: seq<T>, settled: bool, idle: set<T>)
    requires |ring| > 1 && HasRunnable(ring[1..], idle)
    ensures HasRunnable(Detached(ring, settled), idle)
    ensures forall x :: x in Detached(ring, settled) ==> x in ring
  {
    RotateKeepsMembers(ring, idle);
  }

  lemma RotateKeepsMembers<T>(ring: seq<T>, idle: set<T>)
    requires ring != []
    ensures forall x :: x in Rotate(ring) ==> x in ring
    ensures forall x :: x in ring ==> x in Rotate(ring)
    ensures HasRunnable(ring, idle) <==> HasRunnable(Rotate(ring), idle)
    ensures HasRunnable(ring[1..], idle) ==> HasRunnable(ring, idle)
  {
    forall x | x in ring
      ensures x == ring[0] || x in ring[1..]
    {
      var i :| 0 <= i < |ring| && ring[i] == x;
      assert i > 0 ==> ring[1..][i - 1] == x;
    }
  }

  /** The ring after the walk has passed j nodes. */
  function Walked<T>(before: seq<T>, j: nat, dead: set<T>): seq<T>
    requires j <= |before|
  {
    if j == 0 then before
    else
      var r := Walked(before, j - 1, dead);
      if r == [] then [] else r[1..] + if before[j - 1] in dead then [] else [before[j - 1]]
  }

  lemma {:induction false} WalkedInFull<T>(before: seq<T>, j: nat, dead: set<T>)
    requires j <= |before|
    ensures Walked(before, j, dead) == before[j..] + Alive(before[..j], dead)
  {
    if j > 0 {
      WalkedInFull(before, j - 1, dead);
      assert before[..j][..j - 1] == before[..j - 1];
      assert before[j - 1..] == [before[j - 1]] + before[j..];
    }
  }

  lemma WalkOn(before: seq<Node>, j: nat, dead: set<Node>)
    requires j + 1 < |before|
    ensures var ring := Walked(before, j, dead);
            && |ring| > 1 && ring[0] == before[j] && ring[1] == before[j + 1]
            && Walked(before, j + 1, dead) == if before[j] in dead then ring[1..] else Rotate(ring)
  {
    WalkedInFull(before, j, dead);
  }

  /** The processes of the killed ones among the first j nodes, in order. */
  function Killed(ring: seq<Node>, j: nat, dead: set<Node>): seq<P.Process>
    requires j <= |ring|
  {
    if j == 0 then [] else Killed(ring, j - 1, dead) + if ring[j - 1] in dead then [ring[j - 1].p] else []
  }

  // ---------------------------------------------------------------------------
  // What the walk keeps

  lemma {:induction false} AliveIsFilter<T>(ring: seq<T>, dead: set<T>)
    ensures forall x :: x in Alive(ring, dead) ==> x in ring && x !in dead
    ensures forall x :: x in ring && x !in dead ==> x in Alive(ring, dead)
  {
    if ring != [] {
      var n := |ring| - 1;
      AliveIsFilter(ring[..n], dead);
      assert ring == ring[..n] + [ring[n]];
    }
  }

  /** A process is in the ring after the walk exactly if it was before and the walk did not
      pass it killed. */
  lemma NextRingMembers<T>(ring: seq<T>, blocked: set<T>, dead: set<T>, x: T)
    ensures var k := FirstRunnable(ring, blocked + dead);
            x in NextRing(ring, blocked, dead) <==> x in ring[k..] || (x in ring[..k] && x !in dead)
  {
    AliveIsFilter(ring[..FirstRunnable(ring, blocked + dead)], dead);
  }

  /** Where prev is once the walk has passed k nodes: it follows over the live ones. */
  function PrevAfter<T>(prev: T, ring: seq<T>, k: nat, dead: set<T>): T
    requires k <= |ring|
  {
    if k == 0 then prev
    else if ring[k - 1] !in dead then ring[k - 1]
    else PrevAfter(prev, ring, k - 1, dead)
  }

  function Last<T>(ring: seq<T>): T
    requires ring != []
  {
    ring[|ring| - 1]
  }

  /** A walk that starts with prev before current ends so. */
  lemma {:induction false} PrevStaysLast<T>(ring: seq<T>, k: nat, dead: set<T>)
    requires k < |ring|
    ensures PrevAfter(Last(ring), ring, k, dead) == Last(ring[k..] + Alive(ring[..k], dead))
  {
    if k > 0 {
      assert ring[..k][..k - 1] == ring[..k - 1];
      if ring[k - 1] in dead {
        PrevStaysLast(ring, k - 1, dead);
        assert Alive(ring[..k], dead) == Alive(ring[..k - 1], dead);
        assert Last(ring[k - 1..]) == Last(ring[k..]);
      }
    }
  }

  lemma {:induction false} AliveIsDistinct<T>(ring: seq<T>, dead: set<T>)
    requires Distinct(ring)
    ensures Distinct(Alive(ring, dead))
  {
    if ring != [] {
      var n := |ring| - 1;
      AliveIsDistinct(ring[..n], dead);
      AliveIsFilter(ring[..n], dead);
    }
  }

  lemma NextRingIsDistinct<T>(ring: seq<T>, blocked: set<T>, dead: set<T>)
    requires Distinct(ring)
    ensures Distinct(NextRing(ring, blocked, dead))
  {
    var k := FirstRunnable(ring, blocked + dead);
    var passed := Alive(ring[..k], dead);
    AliveIsDistinct(ring[..k], dead);
    forall j | 0 <= j < |passed|
      ensures passed[j] !in ring[k..]
    {
      var before := ring[..k];
      AliveIsFilter(before, dead);
      assert passed[j] in before;
      var i :| 0 <= i < |before| && before[i] == passed[j];
      assert ring[i] == passed[j];
    }
    ConcatIsDistinct(ring[k..], passed);
  }

  lemma ConcatIsDistinct<T>(a: seq<T>, b: seq<T>)
    requires Distinct(a) && Distinct(b) && forall j :: 0 <= j < |b| ==> b[j] !in a
    ensures Distinct(a + b)
  {
    forall i, j | 0 <= i < j < |a + b|
      ensures (a + b)[i] != (a + b)[j]
    {
      assert i < |a| ==> (a + b)[i] in a;
    }
  }

  // ---------------------------------------------------------------------------
  // Every run of the scheduler

  type Pid = nat

  /** The ring from the current process on. */
  datatype State = State(ring: seq<Pid>, prev: Pid, blocked: set<Pid>, dead: set<Pid>)

  /** A switch, the end of the current process, a new process, or a change of some status. */
  datatype Event = Switch | End | Add(p: Pid) | Block(p: Pid) | Wake(p: Pid) | Kill(p: Pid)

  /** add_process on an empty ring. */
  function Started(p: Pid): State {
    State([p], p, {}, {})
  }

  predicate Settled(s: State) {
    s.ring != [] && s.prev == Last(s.ring)
  }

  ghost predicate Enabled(s: State, e: Event) {
    match e
    case Switch => HasRunnable(s.ring, s.blocked + s.dead)
    case End => |s.ring| > 1 && HasRunnable(s.ring[1..], s.blocked + s.dead)
    case Add(p) => s.ring != [] && p !in s.ring
    case _ => true
  }

  /** set_next_current with current at the head of `ring`. */
  function Walk(s: State, ring: seq<Pid>, prev: Pid): State {
    s.(ring := NextRing(ring, s.blocked, s.dead),
       prev := PrevAfter(prev, ring, FirstRunnable(ring, s.blocked + s.dead), s.dead))
  }

  /** End relinks prev, which does not move; Switch sets it to the process switched from. */
  function Step(s: State, e: Event): State
    requires s.ring != []
  {
    match e
    case Switch => Walk(s, Rotate(s.ring), s.ring[0])
    case End => Walk(s, Detached(s.ring, Settled(s)), s.prev)
    case Add(p) => s.(ring := [s.ring[0], p] + s.ring[1..])
    case Block(p) => if p in s.dead then s else s.(blocked := s.blocked + {p})
    case Wake(p) => if p in s.dead then s else s.(blocked := s.blocked - {p})
    case Kill(p) => s.(dead := s.dead + {p}, blocked := s.blocked - {p})
  }

  function StatusOf(s: State, p: Pid): P.Status {
    if p in s.dead then P.Delete else if p in s.blocked then P.Blocked else P.Ready
  }

  /** Each event changes the status of the process it names as the methods of Process do, and
      nobody else's. */
  lemma StatusChanges(s: State, e: Event, q: Pid)
    requires s.ring != []
    ensures e.Block? || e.Wake? || e.Kill? ==> Enabled(s, e)
    ensures StatusOf(Step(s, e), q) ==
              match e
              case Block(p) => if q == p && !StatusOf(s, q).Delete? then P.Blocked else StatusOf(s, q)
              case Wake(p) => if q == p && !StatusOf(s, q).Delete? then P.Ready else StatusOf(s, q)
              case Kill(p) => if q == p then P.Delete else StatusOf(s, q)
              case _ => StatusOf(s, q)
  {}

  ghost predicate Legal(s: State, es: seq<Event>)
    decreases |es|
  {
    s.ring != [] && (es == [] || (Enabled(s, es[0]) && Legal(Step(s, es[0]), es[1..])))
  }

  ghost function After(s: State, es: seq<Event>): State
    requires Legal(s, es)
    decreases |es|
  {
    if es == [] then s else After(Step(s, es[0]), es[1..])
  }

  function Switches(es: seq<Event>): nat {
    if es == [] then 0 else (if es[0].Switch? || es[0].End? then 1 else 0) + Switches(es[1..])
  }

  /** A process was added to a ring of one, and nothing was switched or ended since. */
  ghost predicate AddedToOne(s: State, es: seq<Event>)
    requires Legal(s, es)
    decreases |es|
  {
    es != [] && (
      || (es[0].Add? && |s.ring| == 1 && Switches(es[1..]) == 0)
      || AddedToOne(Step(s, es[0]), es[1..]))
  }

  ghost predicate Sound(s: State) {
    s.ring != [] && Distinct(s.ring) && (s.prev == Last(s.ring) || s.prev == s.ring[0])
  }

  lemma WalkSettles(s: State, ring: seq<Pid>)
    requires Distinct(ring) && HasRunnable(ring, s.blocked + s.dead)
    ensures Sound(Walk(s, ring, Last(ring))) && Settled(Walk(s, ring, Last(ring)))
  {
    FirstRunnableIsFirst(ring, s.blocked + s.dead);
    PrevStaysLast(ring, FirstRunnable(ring, s.blocked + s.dead), s.dead);
    NextRingIsDistinct(ring, s.blocked, s.dead);
  }

  lemma SwitchSettles(s: State, e: Event)
    requires Sound(s) && Enabled(s, e) && (e.Switch? || e.End?)
    ensures Sound(Step(s, e)) && Settled(Step(s, e))
  {
    var idle := s.blocked + s.dead;
    if e.Switch? {
      RotateKeepsMembers(s.ring, idle);
      assert Distinct(Rotate(s.ring)) && Last(Rotate(s.ring)) == s.ring[0];
      WalkSettles(s, Rotate(s.ring));
    } else {
      var left := Detached(s.ring, Settled(s));
      DetachedKeepsMembers(s.ring, Settled(s), idle);
      assert Distinct(left) && Last(left) == s.prev;
      WalkSettles(s, left);
    }
  }

  lemma {:induction false} StaleSince(s: State, es: seq<Event>)
    requires Sound(s) && Legal(s, es)
    ensures Sound(After(s, es))
    ensures !Settled(After(s, es)) <==> (!Settled(s) && Switches(es) == 0) || AddedToOne(s, es)
    decreases |es|
  {
    if es != [] {
      var s' := Step(s, es[0]);
      if es[0].Switch? || es[0].End? {
        SwitchSettles(s, es[0]);
      } else if es[0].Add? {
        assert Distinct(s'.ring) && s'.ring[0] == s.ring[0];
        assert Settled(s') <==> Settled(s) && |s.ring| > 1;
      }
      StaleSince(s', es[1..]);
    }
  }

  /** Over every run from a ring of one, prev is not the node before current exactly if a process
      was added to a ring of one and nothing was switched or ended since. */
  lemma PrevIsStaleIff(p: Pid, es: seq<Event>)
    requires Legal(Started(p), es)
    ensures !Settled(After(Started(p), es)) <==> AddedToOne(Started(p), es)
  {
    StaleSince(Started(p), es);
  }

  /** So an ended process stays in the ring exactly then. */
  lemma EndStaysInRingIff(p: Pid, es: seq<Event>)
    requires Legal(Started(p), es) && Enabled(After(Started(p), es), End)
    ensures var s := After(Started(p), es);
            s.ring[0] in Step(s, End).ring <==> AddedToOne(Started(p), es)
  {
    StaleSince(Started(p), es);
    EndUnlinksIffSettled(After(Started(p), es));
  }

  lemma EndUnlinksIffSettled(s: State)
    requires Sound(s) && Enabled(s, End)
    ensures s.ring[0] !in Step(s, End).ring <==> Settled(s)
  {
    var first, rest := s.ring[0], s.ring[1..];
    assert first !in rest;
    if Settled(s) {
      NotPicked(rest, first, s.blocked, s.dead);
    } else {
      LastIsKept(rest, first, s.blocked, s.dead);
    }
  }

  lemma NotPicked<T>(ring: seq<T>, x: T, blocked: set<T>, dead: set<T>)
    requires x !in ring
    ensures x !in NextRing(ring, blocked, dead)
  {
    NextRingMembers(ring, blocked, dead, x);
    var k := FirstRunnable(ring, blocked + dead);
    assert ring == ring[..k] + ring[k..];
  }

  lemma LastIsKept<T>(rest: seq<T>, x: T, blocked: set<T>, dead: set<T>)
    requires HasRunnable(rest, blocked + dead)
    ensures x in NextRing(rest + [x], blocked, dead)
  {
    RunnableBeforeLast(rest, x, blocked + dead);
    var k := FirstRunnable(rest + [x], blocked + dead);
    assert (rest + [x])[k..][|rest| - k] == x;
  }

  lemma RunnableBeforeLast<T>(rest: seq<T>, x: T, idle: set<T>)
    requires HasRunnable(rest, idle)
    ensures FirstRunnable(rest + [x], idle) < |rest|
  {
    var ring := rest + [x];
    FirstRunnableIsFirst(ring, idle);
    var i :| 0 <= i < |rest| && rest[i] !in idle;
    assert ring[i] == rest[i];
  }

  /** It is reachable: the first process ends right after starting the second. */
  lemma StaleEndIsReachable()
    ensures exists es :: Legal(Started(0), es) && Enabled(After(Started(0), es), End)
              && 0 in Step(After(Started(0), es), End).ring
  {
    var s, es := Started(0), [Add(1)];
    var s' := Step(s, es[0]);
    assert s'.ring == [0, 1] && es[1..] == [];
    assert Legal(s', []) && Legal(s, es) && After(s', []) == s' && After(s, es) == s';
    assert s'.ring[1..] == [1] && 1 in [1] && 1 !in s'.blocked + s'.dead;
    assert AddedToOne(s, es);
    EndStaysInRingIff(0, es);
  }

  // ---------------------------------------------------------------------------
  // Bounded waiting

  /** A legal run during which t stays ready and in the ring. */
  ghost predicate ReadyRun(s: State, es: seq<Event>, t: Pid)
    decreases |es|
  {
    && s.ring != [] && t !in s.blocked + s.dead
    && (es != [] ==> Enabled(s, es[0]) && ReadyRun(Step(s, es[0]), es[1..], t))
  }

  ghost predicate BecomesCurrent(s: State, es: seq<Event>, t: Pid)
    requires ReadyRun(s, es, t)
    decreases |es|
  {
    s.ring[0] == t || (es != [] && BecomesCurrent(Step(s, es[0]), es[1..], t))
  }

  function Adds(es: seq<Event>): nat {
    if es == [] then 0 else (if es[0].Add? then 1 else 0) + Adds(es[1..])
  }

  /** The walk never goes past a ready process. */
  lemma NextRingAdvances(ring: seq<Pid>, blocked: set<Pid>, dead: set<Pid>, i: nat)
    requires i < |ring| && ring[i] !in blocked + dead
    ensures var r := NextRing(ring, blocked, dead);
            exists j :: 0 <= j <= i && j < |r| && r[j] == ring[i]
  {
    FirstRunnableIsFirst(ring, blocked + dead);
    var k := FirstRunnable(ring, blocked + dead);
    assert k <= i;
    assert NextRing(ring, blocked, dead)[i - k] == ring[i];
  }

  /** A process that stays ready, d places ahead, becomes current within d context switches plus
      one for each process added meanwhile, whatever happens to the others. */
  lemma {:induction false} BoundedWaiting(s: State, es: seq<Event>, t: Pid, d: nat)
    requires ReadyRun(s, es, t) && d < |s.ring| && s.ring[d] == t
    requires Switches(es) >= d + Adds(es)
    ensures BecomesCurrent(s, es, t)
    decreases |es|
  {
    if d > 0 {
      var s' := Step(s, es[0]);
      match es[0]
      case Switch =>
        assert Rotate(s.ring)[d - 1] == t;
        NextRingAdvances(Rotate(s.ring), s.blocked, s.dead, d - 1);
        var j :| 0 <= j <= d - 1 && j < |s'.ring| && s'.ring[j] == t;
        BoundedWaiting(s', es[1..], t, j);
      case End =>
        var left := Detached(s.ring, Settled(s));
        assert left[d - 1] == t;
        NextRingAdvances(left, s.blocked, s.dead, d - 1);
        var j :| 0 <= j <= d - 1 && j < |s'.ring| && s'.ring[j] == t;
        BoundedWaiting(s', es[1..], t, j);
      case Add(p) =>
        assert s'.ring[d + 1] == t;
        BoundedWaiting(s', es[1..], t, d + 1);
      case _ =>
        BoundedWaiting(s', es[1..], t, d);
    }
  }
}
