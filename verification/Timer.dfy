/** The list of sleeping processes that the timer interrupt counts down. */
module Timer {
  import opened Common
  import P = Process

  // ---------------------------------------------------------------------------
  // One timer tick on a list

  datatype Entry<T> = Entry(who: T, ticks: nat)

  function Ticked<T>(es: seq<Entry<T>>): seq<Entry<T>> {
    if es == [] then []
    else (if es[0].ticks > 1 then [es[0].(ticks := es[0].ticks - 1)] else []) + Ticked(es[1..])
  }

  /** Whom a tick unblocks, in list order. */
  function Woken<T>(es: seq<Entry<T>>): seq<T> {
    if es == [] then []
    else (if es[0].ticks > 1 then [] else [es[0].who]) + Woken(es[1..])
  }

  function TickedTimes<T>(es: seq<Entry<T>>, k: nat): seq<Entry<T>>
    decreases k
  {
    if k == 0 then es else TickedTimes(Ticked(es), k - 1)
  }

  /** The sleepers with more than `k` ticks left, each with `k` fewer. */
  function Aged<T>(es: seq<Entry<T>>, k: nat): seq<Entry<T>> {
    if es == [] then []
    else (if es[0].ticks > k then [es[0].(ticks := es[0].ticks - k)] else []) + Aged(es[1..], k)
  }

  predicate Positive<T>(es: seq<Entry<T>>) {
    forall i :: 0 <= i < |es| ==> es[i].ticks > 0
  }

  lemma {:induction false} AgedStep<T>(es: seq<Entry<T>>, k: nat)
    requires Positive(es)
    ensures Positive(Ticked(es))
    ensures Aged(Ticked(es), k) == Aged(es, k + 1)
  {
    if es != [] {
      AgedStep(es[1..], k);
      if es[0].ticks > 1 {
        var first := es[0].(ticks := es[0].ticks - 1);
        assert Ticked(es) == [first] + Ticked(es[1..]) && Ticked(es)[1..] == Ticked(es[1..]);
      } else {
        assert Ticked(es) == Ticked(es[1..]);
      }
    }
  }

  lemma {:induction false} AgedZero<T>(es: seq<Entry<T>>)
    requires Positive(es)
    ensures Aged(es, 0) == es
  {
    if es != [] {
      AgedZero(es[1..]);
    }
  }

  /** After k ticks the list holds exactly the sleepers that had more than k ticks left, each
      reduced by k, in the same order. */
  lemma {:induction false} TicksAge<T>(es: seq<Entry<T>>, k: nat)
    requires Positive(es)
    ensures TickedTimes(es, k) == Aged(es, k)
    decreases k
  {
    if k == 0 {
      AgedZero(es);
    } else {
      AgedStep(es, k - 1);
      TicksAge(Ticked(es), k - 1);
    }
  }

  /** One turn of the handler's loop, at position `k`. */
  function Visited<T>(es: seq<Entry<T>>, k: nat): seq<Entry<T>>
    requires k < |es|
  {
    if es[k].ticks > 1 then es[k := es[k].(ticks := es[k].ticks - 1)] else Removed(es, k)
  }

  function Removed<T>(s: seq<T>, k: nat): seq<T>
    requires k < |s|
  {
    s[..k] + s[k + 1..]
  }

  lemma RemovedMembers<T>(s: seq<T>, k: nat)
    requires k < |s|
    ensures forall x :: x in Removed(s, k) ==> x in s
    ensures k > 0 ==> Removed(s, k)[k - 1] == s[k - 1]
  {}

  /** What a turn leaves to do. */
  lemma VisitAdvances<T>(es: seq<Entry<T>>, k: nat)
    requires k < |es| && Positive(es)
    ensures var es', k' := Visited(es, k), if es[k].ticks > 1 then k + 1 else k;
            && k' <= |es'| && |es'| - k' < |es| - k
            && Positive(es')
            && es'[..k'] + Ticked(es'[k'..]) == es[..k] + Ticked(es[k..])
            && Woken(es[k..]) == (if k' == k then [es[k].who] else []) + Woken(es'[k'..])
  {
    var es', rest := Visited(es, k), es[k + 1..];
    assert es[k..][1..] == rest;
    if es[k].ticks > 1 {
      assert es'[k + 1..] == rest && es'[..k + 1] == es[..k] + [es'[k]];
    } else {
      assert es'[k..] == rest && es'[..k] == es[..k];
    }
  }

  // ---------------------------------------------------------------------------
  // The linked list

  class Sleeper<T> {
    const who: T
    var ticks: nat
    var next: Sleeper?<T>

    constructor (who: T, ticks: nat, next: Sleeper?<T>)
      ensures this.who == who && this.ticks == ticks && this.next == next
    {
      this.who, this.ticks, this.next := who, ticks, next;
    }
  }

  /** `nodes` is the spine of the list and `entries` its value. */
  class SleepList<T> {
    var head: Sleeper?<T>
    ghost var nodes: seq<Sleeper<T>>
    ghost var entries: seq<Entry<T>>

    ghost predicate Shape()
      reads this, nodes
    {
      && (nodes == [] ==> head == null)
      && (nodes != [] ==> head == nodes[0] && nodes[|nodes| - 1].next == null)
      && (forall i, j :: 0 <= i < j < |nodes| ==> nodes[i] != nodes[j])
      && (forall i, j :: 0 <= i < j < |nodes| && j == i + 1 ==> nodes[i].next == nodes[j])
      && |entries| == |nodes|
      && (forall i :: 0 <= i < |nodes| ==> entries[i] == Entry(nodes[i].who, nodes[i].ticks))
    }

    ghost predicate Valid()
      reads this, nodes
    {
      Shape() && Positive(entries)
    }

    constructor ()
      ensures Valid() && entries == [] && nodes == []
    {
      head, nodes, entries := null, [], [];
    }

    method Prepend(who: T, wait: nat)
      requires Valid() && wait > 0
      modifies this
      ensures Valid() && entries == [Entry(who, wait)] + old(entries)
      ensures |nodes| > 0 && fresh(nodes[0]) && nodes[1..] == old(nodes)
    {
      var node := new Sleeper(who, wait, head);
      assert node !in nodes;
      head := node;
      nodes := [node] + nodes;
      entries := [Entry(who, wait)] + entries;
    }

    /** Takes the node after `prev`, or the first one, out of the list. */
    method Unlink(prev: Sleeper?<T>, current: Sleeper<T>, ghost k: nat)
      requires Shape()
      requires k < |nodes| && nodes[k] == current
      requires if k == 0 then prev == null else prev == nodes[k - 1]
      modifies this, prev
      ensures Shape()
      ensures nodes == Removed(old(nodes), k) && entries == Removed(old(entries), k)
      ensures current.next == if k < |nodes| then nodes[k] else null
    {
      ghost var rest := Removed(nodes, k);
      assert k + 1 < |nodes| ==> current.next == nodes[k + 1];
      assert forall i :: 0 <= i < k ==> rest[i] == nodes[i];
      assert forall i :: k <= i < |rest| ==> rest[i] == nodes[i + 1];
      if prev == null {
        head := current.next;
      } else {
        prev.next := current.next;
      }
      nodes := rest;
      entries := Removed(entries, k);
    }

    method CountDown(current: Sleeper<T>, ghost k: nat)
      requires Shape() && k < |nodes| && nodes[k] == current && current.ticks > 0
      modifies this`entries, current`ticks
      ensures Shape() && current.ticks == old(current.ticks) - 1
      ensures entries == old(entries)[k := Entry(current.who, current.ticks)]
    {
      current.ticks := current.ticks - 1;
      entries := entries[k := Entry(current.who, current.ticks)];
    }

    /** One turn of the handler's loop. */
    method Visit(prev: Sleeper?<T>, current: Sleeper<T>, ghost k: nat) returns (gone: bool, next: Sleeper?<T>)
      requires Shape() && k < |nodes| && nodes[k] == current && entries[k].ticks > 0
      requires if k == 0 then prev == null else prev == nodes[k - 1]
      modifies this, prev, current
      ensures Shape() && gone == (old(entries)[k].ticks <= 1)
      ensures entries == Visited(old(entries), k)
      ensures nodes == if gone then Removed(old(nodes), k) else old(nodes)
      ensures var k' := if gone then k else k + 1; next == if k' < |nodes| then nodes[k'] else null
    {
      CountDown(current, k);
      gone := current.ticks <= 0;
      if gone {
        assert Removed(entries, k) == Removed(old(entries), k);
        Unlink(prev, current, k);
      }
      next := current.next;
    }

    /** The same turn, told by what is left to do. */
    method Advance(prev: Sleeper?<T>, current: Sleeper<T>, ghost k: nat)
      returns (gone: bool, last: Sleeper?<T>, next: Sleeper?<T>, ghost k': nat)
      requires Valid() && k < |nodes| && nodes[k] == current
      requires if k == 0 then prev == null else prev == nodes[k - 1]
      modifies this, prev, current
      ensures Valid() && k' == if gone then k else k + 1
      ensures k' <= |nodes| && |nodes| - k' < old(|nodes|) - k
      ensures next == if k' < |nodes| then nodes[k'] else null
      ensures last == if k' == 0 then null else nodes[k' - 1]
      ensures forall n :: n in nodes ==> n in old(nodes)
      ensures entries[..k'] + Ticked(entries[k'..]) == old(entries[..k] + Ticked(entries[k..]))
      ensures old(Woken(entries[k..])) == (if gone then [current.who] else []) + Woken(entries[k'..])
    {
      VisitAdvances(entries, k);
      RemovedMembers(nodes, k);
      gone, next := Visit(prev, current, k);
      k' := if gone then k else k + 1;
      last := if gone then prev else current;
    }

    /** timer_handler: every sleeper loses a tick, and those left with none are unlinked.
        They are to be unblocked in the order of the result. */
    method Handle() returns (woken: seq<T>)
      requires Valid()
      modifies this, nodes
      ensures Valid() && entries == Ticked(old(entries))
      ensures woken == Woken(old(entries))
    {
      var current, prev := head, null;
      ghost var before := nodes;
      ghost var k := 0;
      woken := [];
      while current != null
        invariant Valid() && k <= |nodes|
        invariant forall n :: n in nodes ==> n in before
        invariant current == if k < |nodes| then nodes[k] else null
        invariant prev == if k == 0 then null else nodes[k - 1]
        invariant entries[..k] + Ticked(entries[k..]) == Ticked(old(entries))
        invariant woken + Woken(entries[k..]) == Woken(old(entries))
        decreases |nodes| - k
      {
        assert current in nodes && (k > 0 ==> prev in nodes);
        var who := current.who;
        var gone;
        gone, prev, current, k := Advance(prev, current, k);
        var more := if gone then [who] else [];
        Associative(woken, more, Woken(entries[k..]));
        woken := woken + more;
      }
      assert entries[k..] == [] && entries[..k] == entries;
    }
  }

  /** sleep for the current process, up to the yield, with no tick in between: a wait shorter than
      one tick is no wait at all. */
  method Sleep(list: SleepList<P.Process>, p: P.Process, milliseconds: nat) returns (slept: bool)
    requires list.Valid()
    modifies list, p
    ensures list.Valid()
    ensures slept <==> milliseconds >= 55
    ensures list.entries == if slept then [Entry(p, milliseconds / 55)] + old(list.entries) else old(list.entries)
    ensures p.st == if slept && old(p.st) != P.Delete then P.Blocked else old(p.st)
  {
    var wait := milliseconds / 55;
    slept := wait != 0;
    if slept {
      list.Prepend(p, wait);
      p.Block();
    }
  }

  /** A tick with its effect on the processes: exactly those whose last tick it was and that
      have not been killed become ready. */
  method TimerHandler(list: SleepList<P.Process>, ghost procs: set<P.Process>)
    requires list.Valid() && forall i :: 0 <= i < |list.entries| ==> list.entries[i].who in procs
    modifies list, list.nodes, procs
    ensures list.Valid() && list.entries == Ticked(old(list.entries))
    ensures forall p :: p in procs ==>
              p.st == if p in Woken(old(list.entries)) && old(p.st) != P.Delete then P.Ready else old(p.st)
  {
    WokenAreAmong(list.entries, procs);
    var woken := list.Handle();
    UnblockAll(woken, procs);
  }

  method UnblockAll(woken: seq<P.Process>, ghost procs: set<P.Process>)
    requires forall i :: 0 <= i < |woken| ==> woken[i] in procs
    modifies procs
    ensures forall p :: p in procs ==>
              p.st == if p in woken && old(p.st) != P.Delete then P.Ready else old(p.st)
  {
    for i := 0 to |woken|
      invariant forall p :: p in procs ==>
                  p.st == if p in woken[..i] && old(p.st) != P.Delete then P.Ready else old(p.st)
    {
      assert woken[..i + 1] == woken[..i] + [woken[i]];
      woken[i].Unblock();
    }
    assert woken[..|woken|] == woken;
  }

  lemma {:induction false} WokenAreAmong<T>(es: seq<Entry<T>>, procs: set<T>)
    requires forall i :: 0 <= i < |es| ==> es[i].who in procs
    ensures forall i :: 0 <= i < |Woken(es)| ==> Woken(es)[i] in procs
  {
    if es != [] {
      WokenAreAmong(es[1..], procs);
    }
  }

  // ---------------------------------------------------------------------------
  // Every run of sleeps and ticks

  /** sleep is two steps: joining the list, and blocking. */
  datatype Event = SleepFor(milliseconds: nat) | BlockOf(call: nat) | Tick

  datatype Call = Call(at: nat, milliseconds: nat)

  datatype Wake = Wake(call: nat, at: nat)

  /** Sleepers are named by the number of their sleep call; `blocked` holds those that are blocked
      in it. The rest is history: when each call was made and for how long, whom the handler
      unblocked at which tick, and when each caller blocked. */
  datatype Clock = Clock(
    sleeping: seq<Entry<nat>>, blocked: set<nat>, calls: seq<Call>, now: nat, wakes: seq<Wake>, blockedAt: map<nat, nat>)

  const START := Clock([], {}, [], 0, [], map[])

  function WakesAt(who: seq<nat>, now: nat): seq<Wake> {
    seq(|who|, i requires 0 <= i < |who| => Wake(who[i], now))
  }

  /** A caller with something to wait for blocks once. */
  predicate Enabled(c: Clock, e: Event) {
    e.BlockOf? ==> e.call < |c.calls| && WaitOf(c.calls[e.call]) > 0 && e.call !in c.blockedAt
  }

  function Step(c: Clock, e: Event): Clock {
    match e
    case SleepFor(milliseconds) =>
      var wait := milliseconds / 55;
      var c' := c.(calls := c.calls + [Call(c.now, milliseconds)]);
      if wait == 0 then c' else c'.(sleeping := [Entry(|c.calls|, wait)] + c.sleeping)
    case BlockOf(call) => c.(blocked := c.blocked + {call}, blockedAt := c.blockedAt[call := c.now])
    case Tick =>
      var woken := Woken(c.sleeping);
      c.(sleeping := Ticked(c.sleeping), now := c.now + 1, wakes := c.wakes + WakesAt(woken, c.now + 1),
         blocked := set t | t in c.blocked && t !in woken)
  }

  ghost predicate Legal(c: Clock, es: seq<Event>)
    decreases |es|
  {
    es == [] || (Enabled(c, es[0]) && Legal(Step(c, es[0]), es[1..]))
  }

  function After(c: Clock, es: seq<Event>): Clock
    decreases |es|
  {
    if es == [] then c else After(Step(c, es[0]), es[1..])
  }

  /** One tick every 55 milliseconds. */
  function WaitOf(call: Call): nat {
    call.milliseconds / 55
  }

  function DueAt(call: Call): nat {
    call.at + WaitOf(call)
  }

  /** Newest first. */
  predicate Newest(es: seq<Entry<nat>>) {
    forall i, j :: 0 <= i < j < |es| ==> es[i].who > es[j].who
  }

  /** The list entry a call should have at time `now`. */
  predicate EntryOf(e: Entry<nat>, calls: seq<Call>, now: nat) {
    e.who < |calls| && e.ticks > 0 && DueAt(calls[e.who]) == now + e.ticks && WaitOf(calls[e.who]) > 0
  }

  predicate WakeOf(w: Wake, calls: seq<Call>, now: nat) {
    w.call < |calls| && w.at == DueAt(calls[w.call]) <= now && WaitOf(calls[w.call]) > 0
  }

  predicate WokenOnce(wakes: seq<Wake>) {
    forall i, j :: 0 <= i < j < |wakes| ==> wakes[i].call != wakes[j].call
  }

  predicate ListOk(sleeping: seq<Entry<nat>>, calls: seq<Call>, now: nat) {
    Newest(sleeping) && forall i :: 0 <= i < |sleeping| ==> EntryOf(sleeping[i], calls, now)
  }

  predicate WakesOk(wakes: seq<Wake>, calls: seq<Call>, now: nat) {
    WokenOnce(wakes) && forall i :: 0 <= i < |wakes| ==> WakeOf(wakes[i], calls, now)
  }

  /** Where a call must be found. */
  predicate Tracked(t: nat, c: Clock)
    requires t < |c.calls|
  {
    var due := DueAt(c.calls[t]);
    WaitOf(c.calls[t]) > 0 ==>
      if c.now < due then Entry(t, due - c.now) in c.sleeping else Wake(t, due) in c.wakes
  }

  /** A caller that blocked before its tick is blocked until that tick; one that blocked at its
      tick or later is blocked for ever. */
  predicate BlockedFits(t: nat, c: Clock)
    requires t in c.blockedAt
  {
    && t < |c.calls| && WaitOf(c.calls[t]) > 0 && c.blockedAt[t] <= c.now
    && (t in c.blocked <==> c.now < DueAt(c.calls[t]) || DueAt(c.calls[t]) <= c.blockedAt[t])
  }

  ghost predicate Inv(c: Clock) {
    && ListOk(c.sleeping, c.calls, c.now)
    && WakesOk(c.wakes, c.calls, c.now)
    && (forall t: nat :: t < |c.calls| ==> Tracked(t, c))
    && (forall t :: t in c.blockedAt ==> BlockedFits(t, c))
  }

  lemma {:induction false} TickedMembers(es: seq<Entry<nat>>, e: Entry<nat>)
    requires Positive(es)
    ensures e in Ticked(es) <==> e.ticks > 0 && e.(ticks := e.ticks + 1) in es
  {
    if es != [] {
      TickedMembers(es[1..], e);
      assert es == [es[0]] + es[1..];
    }
  }

  lemma {:induction false} WokenMembers(es: seq<Entry<nat>>, who: nat)
    requires Positive(es)
    ensures who in Woken(es) <==> Entry(who, 1) in es
  {
    if es != [] {
      WokenMembers(es[1..], who);
      assert es == [es[0]] + es[1..];
    }
  }

  predicate Decreasing(s: seq<nat>) {
    forall i, j :: 0 <= i < j < |s| ==> s[i] > s[j]
  }

  lemma {:induction false} TickKeepsNewest(es: seq<Entry<nat>>)
    requires Newest(es) && Positive(es)
    ensures Newest(Ticked(es))
  {
    if es != [] {
      var first, rest := es[0], Ticked(es[1..]);
      TickKeepsNewest(es[1..]);
      forall i | 0 <= i < |rest|
        ensures rest[i].who < first.who
      {
        TickedMembers(es[1..], rest[i]);
        var k :| 0 <= k < |es[1..]| && es[1..][k] == rest[i].(ticks := rest[i].ticks + 1);
        assert es[k + 1].who == rest[i].who;
      }
      assert Ticked(es) == (if first.ticks > 1 then [first.(ticks := first.ticks - 1)] else []) + rest;
    }
  }

  lemma {:induction false} WokenDecrease(es: seq<Entry<nat>>)
    requires Newest(es) && Positive(es)
    ensures Decreasing(Woken(es))
  {
    if es != [] {
      var first, rest := es[0], Woken(es[1..]);
      WokenDecrease(es[1..]);
      forall i | 0 <= i < |rest|
        ensures rest[i] < first.who
      {
        WokenMembers(es[1..], rest[i]);
        var k :| 0 <= k < |es[1..]| && es[1..][k] == Entry(rest[i], 1);
        assert es[k + 1].who == rest[i];
      }
      assert Woken(es) == (if first.ticks > 1 then [] else [first.who]) + rest;
    }
  }

  lemma SleepKeepsInv(c: Clock, milliseconds: nat)
    requires Inv(c)
    ensures Inv(Step(c, SleepFor(milliseconds)))
  {
    var c' := Step(c, SleepFor(milliseconds));
    var n := |c.calls|;
    forall t: nat | t < |c'.calls|
      ensures Tracked(t, c')
    {
      if t < n {
        assert Tracked(t, c) && c'.calls[t] == c.calls[t];
        assert c'.sleeping == c.sleeping || c'.sleeping[1..] == c.sleeping;
      } else if WaitOf(c'.calls[n]) > 0 {
        assert c'.sleeping[0] == Entry(n, WaitOf(c'.calls[n]));
      }
    }
    assert ListOk(c.sleeping, c'.calls, c.now);
    assert WakesOk(c.wakes, c'.calls, c.now);
    forall t | t in c'.blockedAt
      ensures BlockedFits(t, c')
    {
      assert BlockedFits(t, c) && c'.calls[t] == c.calls[t];
    }
  }

  lemma BlockKeepsInv(c: Clock, call: nat)
    requires Inv(c) && Enabled(c, BlockOf(call))
    ensures Inv(Step(c, BlockOf(call)))
  {
    var c' := Step(c, BlockOf(call));
    forall t: nat | t < |c'.calls|
      ensures Tracked(t, c')
    {
      assert Tracked(t, c);
    }
    forall t | t in c'.blockedAt
      ensures BlockedFits(t, c')
    {
      assert t != call ==> BlockedFits(t, c);
    }
  }

  /** A tick unblocks exactly those whose tick it is. */
  lemma TickKeepsBlocked(c: Clock, t: nat)
    requires t in c.blockedAt && BlockedFits(t, c) && Tracked(t, c)
    requires ListOk(c.sleeping, c.calls, c.now) && Positive(c.sleeping)
    ensures BlockedFits(t, Step(c, Tick))
  {
    WokenMembers(c.sleeping, t);
    if Entry(t, 1) in c.sleeping {
      assert EntryOf(Entry(t, 1), c.calls, c.now);
    }
  }

  lemma TickKeepsList(sleeping: seq<Entry<nat>>, calls: seq<Call>, now: nat)
    requires ListOk(sleeping, calls, now)
    ensures Positive(sleeping) && ListOk(Ticked(sleeping), calls, now + 1)
  {
    assert Positive(sleeping) by {
      assert forall i :: 0 <= i < |sleeping| ==> EntryOf(sleeping[i], calls, now);
    }
    TickKeepsNewest(sleeping);
    forall i | 0 <= i < |Ticked(sleeping)|
      ensures EntryOf(Ticked(sleeping)[i], calls, now + 1)
    {
      TickedMembers(sleeping, Ticked(sleeping)[i]);
    }
  }

  /** Those woken by a tick were due at it, so they had not been woken before. */
  lemma TickKeepsWakes(sleeping: seq<Entry<nat>>, wakes: seq<Wake>, calls: seq<Call>, now: nat)
    requires ListOk(sleeping, calls, now) && Positive(sleeping) && WakesOk(wakes, calls, now)
    ensures WakesOk(wakes + WakesAt(Woken(sleeping), now + 1), calls, now + 1)
  {
    var woken := Woken(sleeping);
    var more := WakesAt(woken, now + 1);
    WokenDecrease(sleeping);
    forall i | 0 <= i < |more|
      ensures more[i].call < |calls| && WakeOf(more[i], calls, now + 1) && DueAt(calls[more[i].call]) > now
    {
      WokenMembers(sleeping, woken[i]);
      assert EntryOf(Entry(woken[i], 1), calls, now);
    }
    assert WokenOnce(more);
    forall i, j | 0 <= i < |wakes| && 0 <= j < |more|
      ensures wakes[i].call != more[j].call
    {
      assert WakeOf(wakes[i], calls, now);
    }
    assert forall i :: 0 <= i < |wakes| ==> WakeOf(wakes[i], calls, now + 1);
  }

  lemma TickKeepsTracked(c: Clock, t: nat)
    requires t < |c.calls| && Tracked(t, c) && Positive(c.sleeping)
    ensures Tracked(t, Step(c, Tick))
  {
    var c', due, woken := Step(c, Tick), DueAt(c.calls[t]), Woken(c.sleeping);
    if WaitOf(c.calls[t]) > 0 {
      if c.now + 1 < due {
        TickedMembers(c.sleeping, Entry(t, due - c.now - 1));
      } else if c.now + 1 == due {
        WokenMembers(c.sleeping, t);
        var i :| 0 <= i < |woken| && woken[i] == t;
        assert c'.wakes[|c.wakes| + i] == Wake(t, due);
      } else {
        assert Wake(t, due) in c'.wakes;
      }
    }
  }

  lemma TickKeepsInv(c: Clock)
    requires Inv(c)
    ensures Inv(Step(c, Tick))
  {
    TickKeepsList(c.sleeping, c.calls, c.now);
    TickKeepsWakes(c.sleeping, c.wakes, c.calls, c.now);
    forall t: nat | t < |c.calls|
      ensures Tracked(t, Step(c, Tick))
    {
      TickKeepsTracked(c, t);
    }
    forall t | t in c.blockedAt
      ensures BlockedFits(t, Step(c, Tick))
    {
      assert BlockedFits(t, c);
      TickKeepsBlocked(c, t);
    }
  }

  lemma {:induction false} RunKeepsInv(c: Clock, es: seq<Event>)
    requires Inv(c) && Legal(c, es)
    ensures Inv(After(c, es))
    decreases |es|
  {
    if es != [] {
      match es[0] {
        case SleepFor(milliseconds) => SleepKeepsInv(c, milliseconds);
        case BlockOf(call) => BlockKeepsInv(c, call);
        case Tick => TickKeepsInv(c);
      }
      RunKeepsInv(Step(c, es[0]), es[1..]);
    }
  }

  /** Over every run of sleeps and ticks: no sleeper is unblocked twice or at a tick other
      than its own; one whose tick has come has been unblocked; one whose tick has not come
      is on the list with the ticks it has left. */
  lemma {:induction false} SleepersWakeOnTime(es: seq<Event>)
    requires Legal(START, es)
    ensures var c := After(START, es);
            && ListOk(c.sleeping, c.calls, c.now)
            && WakesOk(c.wakes, c.calls, c.now)
            && (forall t: nat :: t < |c.calls| ==> Tracked(t, c))
            && |c.calls| == |SleepTimes(es)|
            && forall t: nat :: t < |c.calls| ==>
                 && c.calls[t].milliseconds == SleepTimes(es)[t]
                 && 55 * (DueAt(c.calls[t]) - c.calls[t].at) <= SleepTimes(es)[t]
                 && SleepTimes(es)[t] < 55 * (DueAt(c.calls[t]) - c.calls[t].at + 1)
  {
    RunKeepsInv(START, es);
    CallsAreRecorded(START, es);
  }

  /** What the sleep calls of a run asked for, in order. */
  function SleepTimes(es: seq<Event>): seq<nat> {
    if es == [] then []
    else (if es[0].SleepFor? then [es[0].milliseconds] else []) + SleepTimes(es[1..])
  }

  lemma {:induction false} CallsAreRecorded(c: Clock, es: seq<Event>)
    ensures var calls := After(c, es).calls;
            && |calls| == |c.calls| + |SleepTimes(es)|
            && calls[..|c.calls|] == c.calls
            && forall i :: 0 <= i < |SleepTimes(es)| ==> calls[|c.calls| + i].milliseconds == SleepTimes(es)[i]
    decreases |es|
  {
    if es != [] {
      var c' := Step(c, es[0]);
      CallsAreRecorded(c', es[1..]);
      var calls := After(c, es).calls;
      assert calls[..|c'.calls|] == c'.calls;
      assert calls[..|c.calls|] == c'.calls[..|c.calls|];
      if es[0].SleepFor? {
        assert calls[|c.calls|] == c'.calls[|c.calls|];
        forall i | 0 <= i < |SleepTimes(es)|
          ensures calls[|c.calls| + i].milliseconds == SleepTimes(es)[i]
        {
          if i > 0 {
            assert SleepTimes(es)[i] == SleepTimes(es[1..])[i - 1];
            assert calls[|c'.calls| + (i - 1)].milliseconds == SleepTimes(es[1..])[i - 1];
          }
        }
      }
    }
  }

  /** Over every run, a caller that has blocked is still blocked exactly if its tick has not come,
      or had come before it blocked: a sleep is lost exactly when all its ticks fall between joining
      the list and blocking. */
  lemma {:induction false} SleepIsLostIff(es: seq<Event>, t: nat)
    requires Legal(START, es) && t in After(START, es).blockedAt
    ensures var c := After(START, es);
            && t < |c.calls|
            && (t in c.blocked <==> c.now < DueAt(c.calls[t]) || DueAt(c.calls[t]) <= c.blockedAt[t])
  {
    RunKeepsInv(START, es);
    assert BlockedFits(t, After(START, es));
  }

  /** It happens: a sleep of one tick, the tick, and only then the block. */
  lemma LostSleepIsReachable()
    ensures exists es :: Legal(START, es) && var c := After(START, es);
              |c.calls| == 1 && 0 in c.blocked && 0 in c.blockedAt && DueAt(c.calls[0]) <= c.blockedAt[0]
  {
    var es := [SleepFor(55), Tick, BlockOf(0)];
    var c1 := Step(START, es[0]);
    var c2 := Step(c1, es[1]);
    var c3 := Step(c2, es[2]);
    assert c1.calls == [Call(0, 55)];
    assert es[1..] == [Tick, BlockOf(0)] && es[1..][1..] == [BlockOf(0)] && [BlockOf(0)][1..] == [];
    assert Legal(c3, []) && Legal(c2, [BlockOf(0)]) && Legal(c1, es[1..]) && Legal(START, es);
    assert After(c3, []) == c3 && After(c2, [BlockOf(0)]) == c3 && After(c1, es[1..]) == c3;
    assert After(START, es) == c3;
  }
}
