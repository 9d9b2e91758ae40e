/** What a signal and a broadcast do, in every reachable state, and whom they wake. */
module CondSignals {
  import opened LinkedQueue
  import opened CondVariable

  /** Over every run: a signal takes the earliest entry off the queue and leaves the others, and the
      signaller is the one to unblock its process; on an empty queue it does nothing. A turn of a
      broadcast does the same. The unblocking frees that process and no other. */
  lemma SignalTakesEarliest(es: seq<Event>, e: Event)
    requires Legal(INITIAL, es) && Enabled(After(INITIAL, es), e)
    ensures var s := After(INITIAL, es);
            var s' := Step(s, e);
            match e
            case SignalBy(p) => if s.queue == [] then s' == s else TakenBy(s, p, s')
            case DequeueBy(p) => s.queue != [] && TakenBy(s, p, s')
            case UnblockBy(p) =>
              && p !in s'.duty && OwnerWaits(s, s.duty[p])
              && s' == s.(duty := s'.duty, blocked := s'.blocked)
              && (forall q :: q in s'.duty <==> q in s.duty && q != p)
              && (forall q :: q in s'.blocked <==> q in s.blocked && q != s.owners[s.duty[p]])
            case BroadcastBy(p) => s.broadcaster == None && s' == s.(broadcaster := Some(p))
            case EndBroadcastBy(p) => s.queue == [] && s' == s.(broadcaster := None)
            case _ => true
  {
    if e.UnblockBy? {
      RunKeepsInv(INITIAL, es);
    }
  }

  /** The earliest entry has gone from the queue to p's duty. */
  ghost predicate TakenBy(s: State, p: Pid, s': State) {
    && s.queue != [] && s.queue == [s.queue[0]] + s'.queue
    && s'.released == s.released + [s.queue[0]]
    && p in s'.duty && s'.duty[p] == s.queue[0]
    && s' == s.(queue := s'.queue, released := s'.released, duty := s'.duty)
    && (forall q :: q != p ==> (q in s'.duty <==> q in s.duty) && (q in s.duty ==> s'.duty[q] == s.duty[q]))
  }

  // ---------------------------------------------------------------------------
  // Signals alone, and a broadcast alone, wake those they should

  /** Each of `ps` in turn signals. */
  function Signals(ps: seq<Pid>): seq<Event> {
    if ps == [] then [] else [SignalBy(ps[0]), UnblockBy(ps[0])] + Signals(ps[1..])
  }

  /** The processes of the entries in `ts`. */
  function Owners(s: State, ts: seq<nat>): set<Pid> {
    set t | t in ts && t < |s.owners| :: s.owners[t]
  }

  /** Nothing but the first n entries gone and their processes unblocked. */
  predicate Served(s: State, n: nat, s': State)
    requires n <= |s.queue|
  {
    && s'.queue == s.queue[n..]
    && s' == s.(queue := s'.queue, released := s'.released, blocked := s'.blocked)
    && s'.released == s.released + s.queue[..n]
    && s'.blocked == s.blocked - Owners(s, s.queue[..n])
  }

  lemma OneSignal(s: State, p: Pid)
    requires InTurn(s) && MaySignal(s, p) && s.queue != []
    ensures Enabled(s, SignalBy(p)) && Enabled(Step(s, SignalBy(p)), UnblockBy(p))
    ensures Served(s, 1, Step(Step(s, SignalBy(p)), UnblockBy(p)))
    ensures InTurn(Step(Step(s, SignalBy(p)), UnblockBy(p)))
  {
    var t := s.queue[0];
    var s1 := Step(s, SignalBy(p));
    var s2 := Step(s1, UnblockBy(p));
    assert s.queue[..1] == [t];
    assert Owners(s, [t]) == {s.owners[t]};
    assert s2.duty == s.duty;
  }

  lemma {:induction false} SignalsServe(s: State, ps: seq<Pid>)
    requires InTurn(s) && |ps| <= |s.queue| && forall i :: 0 <= i < |ps| ==> MaySignal(s, ps[i])
    ensures Legal(s, Signals(ps)) && Served(s, |ps|, After(s, Signals(ps)))
    decreases |ps|
  {
    if ps == [] {
      assert Owners(s, s.queue[..0]) == {} && s.blocked - {} == s.blocked;
    } else {
      var p, rest := ps[0], ps[1..];
      var s2 := Step(Step(s, SignalBy(p)), UnblockBy(p));
      OneSignal(s, p);
      assert forall q :: MaySignal(s, q) ==> MaySignal(s2, q);
      SignalsServe(s2, rest);
      TwoSteps(s, SignalBy(p), UnblockBy(p), Signals(rest));
      ServedTwice(s, s2, After(s2, Signals(rest)), |rest|);
    }
  }

  lemma TwoSteps(s: State, e: Event, f: Event, es: seq<Event>)
    requires Enabled(s, e) && Enabled(Step(s, e), f) && Legal(Step(Step(s, e), f), es)
    ensures Legal(s, [e, f] + es) && After(s, [e, f] + es) == After(Step(Step(s, e), f), es)
  {
    var fs := [e, f] + es;
    assert fs[1..] == [f] + es && fs[1..][1..] == es;
    assert Legal(Step(s, e), [f] + es);
  }

  lemma ServedTwice(s: State, s2: State, s3: State, n: nat)
    requires s.queue != [] && Served(s, 1, s2) && n <= |s2.queue| && Served(s2, n, s3)
    ensures Served(s, n + 1, s3)
  {
    assert s.queue[..n + 1] == s.queue[..1] + s2.queue[..n];
    assert Owners(s, s.queue[..n + 1]) == Owners(s, s.queue[..1]) + Owners(s2, s2.queue[..n]);
  }

  /** Over every run: with k entries before its own, a process asleep in cond_wait wakes by k + 1
      signals, by whomever, each with its unblock; nobody waiting behind it does. */
  lemma WokenBySignals(es: seq<Event>, p: Pid, k: nat, ps: seq<Pid>)
    requires Legal(INITIAL, es)
    requires var s := After(INITIAL, es);
             && PcOf(s, p).Asleep? && k < |s.queue| && s.queue[k] == PcOf(s, p).t
             && |ps| <= |s.queue| && forall i :: 0 <= i < |ps| ==> MaySignal(s, ps[i])
    ensures var s := After(INITIAL, es);
            && Legal(s, Signals(ps))
            && (p in After(s, Signals(ps)).blocked <==> p in s.blocked && |ps| <= k)
  {
    var s := After(INITIAL, es);
    RunKeepsInv(INITIAL, es);
    SignalsServe(s, ps);
    OwnsOne(s, p, k, |ps|);
  }

  lemma OwnsOne(s: State, p: Pid, k: nat, n: nat)
    requires EntriesFit(s) && PcOf(s, p).Asleep? && k < |s.queue| && s.queue[k] == PcOf(s, p).t && n <= |s.queue|
    ensures p in Owners(s, s.queue[..n]) <==> k < n
  {
    var first := s.queue[..n];
    if p in Owners(s, first) {
      var t :| t in first && t < |s.owners| && s.owners[t] == p;
      var i :| 0 <= i < |first| && first[i] == t;
      assert s.queue[i] == t && OwnerWaits(s, t);
    }
    if k < n {
      assert first[k] == s.queue[k];
    }
  }

  /** A broadcaster at its loop, with n entries queued. */
  function BroadcastLoop(p: Pid, n: nat): seq<Event> {
    if n == 0 then [EndBroadcastBy(p)] else [DequeueBy(p), UnblockBy(p)] + BroadcastLoop(p, n - 1)
  }

  lemma {:induction false} BroadcastLoopServes(s: State, p: Pid)
    requires InTurn(s) && s.broadcaster == Some(p) && p !in s.duty
    ensures Legal(s, BroadcastLoop(p, |s.queue|))
    ensures var s' := After(s, BroadcastLoop(p, |s.queue|));
            s'.broadcaster == None && Served(s, |s.queue|, s'.(broadcaster := s.broadcaster))
    decreases |s.queue|
  {
    var es := BroadcastLoop(p, |s.queue|);
    if s.queue == [] {
      assert es[1..] == [] && Legal(Step(s, es[0]), []);
      assert Owners(s, s.queue[..0]) == {} && s.blocked - {} == s.blocked;
    } else {
      var s2 := Step(Step(s, DequeueBy(p)), UnblockBy(p));
      OneTurn(s, p);
      BroadcastLoopServes(s2, p);
      var rest := BroadcastLoop(p, |s2.queue|);
      TwoSteps(s, DequeueBy(p), UnblockBy(p), rest);
      ServedTwice(s, s2, After(s2, rest).(broadcaster := s.broadcaster), |s2.queue|);
    }
  }

  lemma OneTurn(s: State, p: Pid)
    requires InTurn(s) && s.broadcaster == Some(p) && p !in s.duty && s.queue != []
    ensures Enabled(s, DequeueBy(p)) && Enabled(Step(s, DequeueBy(p)), UnblockBy(p))
    ensures Served(s, 1, Step(Step(s, DequeueBy(p)), UnblockBy(p)))
    ensures InTurn(Step(Step(s, DequeueBy(p)), UnblockBy(p)))
  {
    var t := s.queue[0];
    var s1 := Step(s, DequeueBy(p));
    var s2 := Step(s1, UnblockBy(p));
    assert s.queue[..1] == [t];
    assert Owners(s, [t]) == {s.owners[t]};
    assert s2.duty == s.duty;
  }

  /** Over every run: a broadcast that nobody interrupts wakes exactly the processes whose entries
      were queued, and leaves the queue empty. */
  lemma BroadcastWakesAll(es: seq<Event>, p: Pid)
    requires Legal(INITIAL, es) && Enabled(After(INITIAL, es), BroadcastBy(p))
    ensures var s := After(INITIAL, es);
            var bs := [BroadcastBy(p)] + BroadcastLoop(p, |s.queue|);
            Legal(s, bs) && Served(s, |s.queue|, After(s, bs)) && After(s, bs).queue == []
  {
    var s := After(INITIAL, es);
    assert InTurn(s) by {
      RunKeepsInv(INITIAL, es);
    }
    var s1, loop := Step(s, BroadcastBy(p)), BroadcastLoop(p, |s.queue|);
    BroadcastLoopServes(s1, p);
    assert ([BroadcastBy(p)] + loop)[1..] == loop;
    assert Owners(s, s.queue[..|s.queue|]) == Owners(s1, s1.queue[..|s.queue|]);
  }

  // ---------------------------------------------------------------------------
  // A broadcast ends

  /** Steps the broadcaster still has to make before it can end. */
  function BroadcastWork(s: State, p: Pid): nat {
    2 * |s.queue| + if p in s.duty then 1 else 0
  }

  /** A broadcaster always has a next step; each one but the last brings it nearer to the end,
      and nobody else's step takes it further away. */
  lemma BroadcastProgresses(s: State, p: Pid, e: Event)
    requires EntriesFit(s) && s.broadcaster == Some(p)
    ensures Enabled(s, UnblockBy(p)) || Enabled(s, DequeueBy(p)) || Enabled(s, EndBroadcastBy(p))
    ensures Enabled(s, e) && e != EndBroadcastBy(p) ==>
              && Step(s, e).broadcaster == Some(p)
              && BroadcastWork(Step(s, e), p) <= BroadcastWork(s, p)
              && (e == UnblockBy(p) || e == DequeueBy(p) ==> BroadcastWork(Step(s, e), p) < BroadcastWork(s, p))
  {}
}
