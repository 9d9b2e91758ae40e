/** Bounded waiting counted in timer ticks: the ring of the scheduler together with the quanta. */
module SchedulerTicks {
  import opened Common
  import opened Scheduler

  /** Processes without an entry have a fresh quantum. */
  datatype Clocked = Clocked(s: State, quanta: map<Pid, int>)

  /** A timer tick, with the superlock set or not; the transfer of a quantum in yield_process, which
      a tick follows; the extra quantum of assign_quantum; and everything else. */
  datatype Beat = Tick(locked: bool) | Give | Assign | Other(e: Event)

  function QuantumOf(c: Clocked, p: Pid): int {
    if p in c.quanta then c.quanta[p] else QUANTUM
  }

  function Changed(c: Clocked, p: Pid, more: int): Clocked {
    c.(quanta := c.quanta[p := QuantumOf(c, p) + more])
  }

  /** The tick uses the quantum up and nobody holds the superlock. */
  predicate Expires(c: Clocked, locked: bool)
    requires c.s.ring != []
  {
    QuantumOf(c, c.s.ring[0]) <= 1 && !locked
  }

  ghost predicate Can(c: Clocked, b: Beat)
    requires c.s.ring != []
  {
    match b
    case Tick(locked) => Expires(c, locked) ==> Enabled(c.s, Switch)
    case Other(e) => Enabled(c.s, e) && !e.Switch?
    case _ => true
  }

  function Next(c: Clocked, b: Beat): Clocked
    requires c.s.ring != []
  {
    var current := c.s.ring[0];
    match b
    case Tick(locked) =>
      if Expires(c, locked) then Clocked(Step(c.s, Switch), c.quanta[current := QUANTUM])
      else Changed(c, current, -1)
    case Give =>
      var next := if |c.s.ring| > 1 then c.s.ring[1] else current;
      var c' := Changed(c, next, 1);
      c'.(quanta := c'.quanta[current := 0])
    case Assign => Changed(c, current, 1)
    case Other(e) =>
      var s' := Step(c.s, e);
      match e
      case End => if s'.ring == [] then c.(s := s') else Changed(c.(s := s'), s'.ring[0], 1)
      case Add(p) => Clocked(s', c.quanta[p := QUANTUM])
      case _ => c.(s := s')
  }

  /** A legal run during which t stays ready and in the ring. */
  ghost predicate ReadyBeats(c: Clocked, bs: seq<Beat>, t: Pid)
    decreases |bs|
  {
    && c.s.ring != [] && t !in c.s.blocked + c.s.dead
    && (bs != [] ==> Can(c, bs[0]) && ReadyBeats(Next(c, bs[0]), bs[1..], t))
  }

  ghost predicate GetsProcessor(c: Clocked, bs: seq<Beat>, t: Pid)
    requires ReadyBeats(c, bs, t)
    decreases |bs|
  {
    c.s.ring[0] == t || (bs != [] && GetsProcessor(Next(c, bs[0]), bs[1..], t))
  }

  /** Ticks that find the superlock free. */
  function FreeTicks(bs: seq<Beat>): nat {
    if bs == [] then 0 else (if bs[0].Tick? && !bs[0].locked then 1 else 0) + FreeTicks(bs[1..])
  }

  /** Quanta handed out and processes added. */
  function Gifts(bs: seq<Beat>): nat {
    if bs == [] then 0
    else (if bs[0].Give? || bs[0].Assign? || (bs[0].Other? && bs[0].e.Add?) then 1 else 0) + Gifts(bs[1..])
  }

  /** The ticks a process needs to use up its quantum. */
  function Cost(c: Clocked, p: Pid): nat {
    if QuantumOf(c, p) > 1 then QuantumOf(c, p) else 1
  }

  function Credit(c: Clocked, ahead: seq<Pid>): nat {
    if ahead == [] then 0 else Cost(c, ahead[0]) + Credit(c, ahead[1..])
  }

  lemma {:induction false} CreditOfSuffix(c: Clocked, ahead: seq<Pid>, k: nat)
    requires k <= |ahead|
    ensures Credit(c, ahead[k..]) + k <= Credit(c, ahead)
  {
    if k > 0 {
      CreditOfSuffix(c, ahead[1..], k - 1);
      assert ahead[1..][k - 1..] == ahead[k..];
    }
  }

  /** Nobody's cost has grown. */
  lemma {:induction false} CreditShrinks(c: Clocked, c': Clocked, ahead: seq<Pid>)
    requires forall i :: 0 <= i < |ahead| ==> Cost(c', ahead[i]) <= Cost(c, ahead[i])
    ensures Credit(c', ahead) <= Credit(c, ahead)
  {
    if ahead != [] {
      CreditShrinks(c, c', ahead[1..]);
    }
  }

  /** The cost of one process has grown by one. */
  lemma {:induction false} CreditGrowsByOne(c: Clocked, c': Clocked, ahead: seq<Pid>, p: Pid)
    requires Distinct(ahead)
    requires forall i :: 0 <= i < |ahead| ==>
               Cost(c', ahead[i]) <= Cost(c, ahead[i]) + if ahead[i] == p then 1 else 0
    ensures Credit(c', ahead) <= Credit(c, ahead) + 1
  {
    if ahead != [] {
      var rest := ahead[1..];
      assert forall i :: 0 <= i < |rest| ==> rest[i] == ahead[i + 1];
      if ahead[0] == p {
        CreditShrinks(c, c', rest);
      } else {
        CreditGrowsByOne(c, c', rest, p);
      }
    }
  }

  /** Where the process d places on is after a walk that starts with the one behind the current
      process, and who is ahead of it then: k fewer of those that were. */
  lemma AheadAfterWalk(ring: seq<Pid>, start: seq<Pid>, blocked: set<Pid>, dead: set<Pid>, d: nat)
    returns (j: nat, k: nat)
    requires 0 < d < |ring| && d <= |start| && start[..d] == ring[1..d + 1] && ring[d] !in blocked + dead
    ensures j + k + 1 == d
    ensures var r := NextRing(start, blocked, dead);
            j < |r| && r[j] == ring[d] && r[..j] == ring[..d][1..][k..]
  {
    var r := NextRing(start, blocked, dead);
    assert start[d - 1] == start[..d][d - 1] == ring[d];
    FirstRunnableIsFirst(start, blocked + dead);
    k := FirstRunnable(start, blocked + dead);
    assert k <= d - 1;
    j := d - 1 - k;
    assert r[j] == start[d - 1];
    forall i | 0 <= i < j
      ensures r[i] == ring[..d][1..][k..][i]
    {
      assert r[i] == start[..d][k + i];
    }
  }

  /** Every beat but the last brings t nearer, in ticks. */
  ghost predicate Nearer(c: Clocked, b: Beat, t: Pid, d: nat, j: nat) {
    && c.s.ring != [] && d <= |c.s.ring|
    && var c' := Next(c, b);
       && j < |c'.s.ring| && c'.s.ring[j] == t
       && Credit(c', c'.s.ring[..j]) + FreeTicks([b]) <= Credit(c, c.s.ring[..d]) + Gifts([b])
  }

  lemma TickBringsNearer(c: Clocked, locked: bool, t: Pid, d: nat) returns (j: nat)
    requires Sound(c.s) && Can(c, Tick(locked)) && 0 < d < |c.s.ring| && c.s.ring[d] == t
    requires t !in c.s.blocked + c.s.dead
    ensures Nearer(c, Tick(locked), t, d, j)
  {
    assert [Tick(locked)][1..] == [];
    if Expires(c, locked) {
      j := SwitchBringsNearer(c, t, d);
    } else {
      j := d;
      CreditShrinks(c, Next(c, Tick(locked)), c.s.ring[..d][1..]);
    }
  }

  lemma SwitchBringsNearer(c: Clocked, t: Pid, d: nat) returns (j: nat)
    requires c.s.ring != [] && Expires(c, false) && 0 < d < |c.s.ring| && c.s.ring[d] == t
    requires t !in c.s.blocked + c.s.dead
    ensures Nearer(c, Tick(false), t, d, j)
  {
    var k;
    j, k := AheadAfterWalk(c.s.ring, Rotate(c.s.ring), c.s.blocked, c.s.dead, d);
    var c', rest := Next(c, Tick(false)), c.s.ring[..d][1..];
    assert Credit(c', rest[k..]) + 1 <= Credit(c, c.s.ring[..d]) by {
      CreditOfSuffix(c, rest, k);
      CreditShrinks(c, c', rest[k..]);
    }
    assert [Tick(false)][1..] == [];
  }

  lemma EndBringsNearer(c: Clocked, t: Pid, d: nat) returns (j: nat)
    requires Sound(c.s) && Enabled(c.s, End) && 0 < d < |c.s.ring| && c.s.ring[d] == t
    requires t !in c.s.blocked + c.s.dead
    ensures Nearer(c, Other(End), t, d, j)
  {
    var k;
    var left := Detached(c.s.ring, Settled(c.s));
    j, k := AheadAfterWalk(c.s.ring, left, c.s.blocked, c.s.dead, d);
    var p := NextRing(left, c.s.blocked, c.s.dead)[0];
    EndCredit(c, c.s.ring[..d], k, p);
    CreditIgnoresRing(Changed(c, p, 1), Step(c.s, End), c.s.ring[..d][1..][k..]);
    assert [Other(End)][1..] == [];
  }

  /** Those ahead lose the first k of them and the one that ended, and one of them gains a quantum. */
  lemma EndCredit(c: Clocked, ahead: seq<Pid>, k: nat, p: Pid)
    requires Distinct(ahead) && k < |ahead|
    ensures Credit(Changed(c, p, 1), ahead[1..][k..]) <= Credit(c, ahead)
  {
    var rest := ahead[1..];
    CreditOfSuffix(c, rest, k);
    assert Distinct(rest[k..]);
    CreditGrowsByOne(c, Changed(c, p, 1), rest[k..], p);
  }

  lemma {:induction false} CreditIgnoresRing(c: Clocked, s: State, ahead: seq<Pid>)
    ensures Credit(c.(s := s), ahead) == Credit(c, ahead)
  {
    if ahead != [] {
      CreditIgnoresRing(c, s, ahead[1..]);
    }
  }

  lemma AddBringsNearer(c: Clocked, p: Pid, t: Pid, d: nat) returns (j: nat)
    requires Sound(c.s) && Enabled(c.s, Add(p)) && 0 < d < |c.s.ring| && c.s.ring[d] == t
    ensures Nearer(c, Other(Add(p)), t, d, j)
  {
    var c', ahead := Next(c, Other(Add(p))), c.s.ring[..d];
    j := d + 1;
    assert [Other(Add(p))][1..] == [];
    assert c'.s.ring[..j] == [ahead[0], p] + ahead[1..];
    assert ([ahead[0], p] + ahead[1..])[1..] == [p] + ahead[1..] && ([p] + ahead[1..])[1..] == ahead[1..];
    CreditShrinks(c, c', ahead[1..]);
  }

  lemma GiftBringsNearer(c: Clocked, b: Beat, t: Pid, d: nat)
    requires Sound(c.s) && (b.Give? || b.Assign?) && 0 < d < |c.s.ring| && c.s.ring[d] == t
    ensures Nearer(c, b, t, d, d)
  {
    assert [b][1..] == [];
    CreditGrowsByOne(c, Next(c, b), c.s.ring[..d], if b.Give? then c.s.ring[1] else c.s.ring[0]);
  }

  lemma BeatBringsNearer(c: Clocked, b: Beat, t: Pid, d: nat) returns (j: nat)
    requires Sound(c.s) && Can(c, b) && 0 < d < |c.s.ring| && c.s.ring[d] == t
    requires t !in c.s.blocked + c.s.dead
    ensures Nearer(c, b, t, d, j) && Sound(Next(c, b).s)
  {
    match b
    case Tick(locked) =>
      j := TickBringsNearer(c, locked, t, d);
      if Expires(c, locked) {
        SwitchSettles(c.s, Switch);
      }
    case Give => j := d; GiftBringsNearer(c, b, t, d);
    case Assign => j := d; GiftBringsNearer(c, b, t, d);
    case Other(e) =>
      if e.End? {
        j := EndBringsNearer(c, t, d);
        SwitchSettles(c.s, End);
      } else if e.Add? {
        j := AddBringsNearer(c, e.p, t, d);
        AddStaysSound(c.s, e.p);
      } else {
        assert [b][1..] == [];
        j := d;
        CreditShrinks(c, Next(c, b), c.s.ring[..d]);
      }
  }

  lemma AddStaysSound(s: State, p: Pid)
    requires Sound(s) && Enabled(s, Add(p))
    ensures Sound(Step(s, Add(p)))
  {
    assert Distinct(Step(s, Add(p)).ring);
  }

  /** A process that stays ready gets the processor within as many ticks with a free superlock as
      those ahead of it need for their quanta, plus one for each quantum given away and each
      process added meanwhile, whatever else happens. */
  lemma {:induction false} BoundedWaitingInTicks(c: Clocked, bs: seq<Beat>, t: Pid, d: nat)
    requires Sound(c.s) && ReadyBeats(c, bs, t) && d < |c.s.ring| && c.s.ring[d] == t
    requires FreeTicks(bs) >= Credit(c, c.s.ring[..d]) + Gifts(bs)
    ensures GetsProcessor(c, bs, t)
    decreases |bs|
  {
    if d > 0 {
      var ahead := c.s.ring[..d];
      assert Credit(c, ahead) > 0;
      var j := BeatBringsNearer(c, bs[0], t, d);
      assert FreeTicks(bs) == FreeTicks([bs[0]]) + FreeTicks(bs[1..]) && Gifts(bs) == Gifts([bs[0]]) + Gifts(bs[1..]) by {
        assert [bs[0]][1..] == [];
      }
      BoundedWaitingInTicks(Next(c, bs[0]), bs[1..], t, j);
    }
  }

  lemma {:induction false} FreshCredit(c: Clocked, ahead: seq<Pid>)
    requires forall i :: 0 <= i < |ahead| ==> QuantumOf(c, ahead[i]) <= QUANTUM
    ensures Credit(c, ahead) == |ahead|
  {
    if ahead != [] {
      FreshCredit(c, ahead[1..]);
    }
  }

  /** When nobody ahead has more than the ordinary quantum, that is one tick per place. */
  lemma OneTickPerPlace(c: Clocked, bs: seq<Beat>, t: Pid, d: nat)
    requires Sound(c.s) && ReadyBeats(c, bs, t) && d < |c.s.ring| && c.s.ring[d] == t
    requires forall i :: 0 <= i < d ==> QuantumOf(c, c.s.ring[i]) <= QUANTUM
    requires FreeTicks(bs) >= d + Gifts(bs)
    ensures GetsProcessor(c, bs, t)
  {
    FreshCredit(c, c.s.ring[..d]);
    BoundedWaitingInTicks(c, bs, t, d);
  }
}
