/** Lost wake-ups: exactly when cond_wait loses one, and that nothing brings it back. */
module CondLost {
  import opened LinkedQueue
  import M = Mutex
  import opened CondVariable

  /** Blocked inside cond_wait with no entry left for anyone to dequeue, and nobody about to
      unblock it. */
  predicate Lost(s: State, p: Pid) {
    PcOf(s, p).Asleep? && p in s.blocked && PcOf(s, p).t !in s.queue && !Pending(s, PcOf(s, p).t)
  }

  /** A process is lost by exactly one event: blocking itself after it was unblocked. */
  lemma LostExactlyByLateBlock(s: State, e: Event, p: Pid)
    requires LockFits(s) && EntriesFit(s) && Enabled(s, e) && !Lost(s, p)
    ensures Lost(Step(s, e), p) <==>
              e == BlockBy(p) && PcOf(s, p).t !in s.queue && !Pending(s, PcOf(s, p).t)
  {
    var s' := Step(s, e);
    SuccessorWaits(s);
    if Lost(s', p) && e != BlockBy(p) {
      NothingElseLoses(s, e, p);
    } else if e == BlockBy(p) {
      assert forall t :: Pending(s', t) <==> Pending(s, t);
    }
  }

  lemma NothingElseLoses(s: State, e: Event, p: Pid)
    requires LockFits(s) && EntriesFit(s) && Enabled(s, e) && e != BlockBy(p) && !Lost(s, p)
    ensures !Lost(Step(s, e), p)
  {
    var s' := Step(s, e);
    SuccessorWaits(s);
    if PcOf(s', p).Asleep? && p in s'.blocked {
      var t := PcOf(s, p).t;
      assert PcOf(s', p) == PcOf(s, p) && p in s.blocked;
      if t in s.queue {
        assert t in s'.queue || ((e.SignalBy? || e.DequeueBy?) && t == s.queue[0]);
        assert t !in s'.queue ==> s'.duty[e.p] == t;
      } else {
        var q :| q in s.duty && s.duty[q] == t;
        assert s.owners[t] == p;
        assert q in s'.duty && s'.duty[q] == t;
      }
    }
  }

  /** Nothing ever wakes a lost process. */
  lemma {:induction false} LostIsForever(s: State, es: seq<Event>, p: Pid)
    requires LockFits(s) && EntriesFit(s) && Legal(s, es) && Lost(s, p)
    ensures Lost(After(s, es), p)
    decreases |es|
  {
    if es != [] {
      StepKeepsLockFits(s, es[0]);
      StepKeepsEntriesFit(s, es[0]);
      LostStaysLost(s, es[0], p);
      LostIsForever(Step(s, es[0]), es[1..], p);
    }
  }

  lemma LostStaysLost(s: State, e: Event, p: Pid)
    requires LockFits(s) && EntriesFit(s) && Enabled(s, e) && Lost(s, p)
    ensures Lost(Step(s, e), p)
  {
    SuccessorWaits(s);
    var s', t := Step(s, e), PcOf(s, p).t;
    assert PcOf(s', p) == PcOf(s, p);
    if e.UnblockBy? {
      assert OwnerWaits(s, s.duty[e.p]);
    }
  }

  /** Some continuation unblocks p. */
  ghost predicate CanWake(s: State, p: Pid) {
    exists es :: Legal(s, es) && p !in After(s, es).blocked
  }

  /** A process blocked in cond_wait can be woken exactly if it is not lost. */
  lemma WakesIffNotLost(es: seq<Event>, p: Pid)
    requires Legal(INITIAL, es) && PcOf(After(INITIAL, es), p).Asleep? && p in After(INITIAL, es).blocked
    ensures CanWake(After(INITIAL, es), p) <==> !Lost(After(INITIAL, es), p)
  {
    var s := After(INITIAL, es);
    RunKeepsInv(INITIAL, es);
    if Lost(s, p) {
      forall fs | Legal(s, fs)
        ensures p in After(s, fs).blocked
      {
        LostIsForever(s, fs, p);
      }
    } else {
      NotLostCanWake(s, p);
    }
  }

  lemma StepThenWakes(s: State, e: Event, p: Pid)
    requires Enabled(s, e) && CanWake(Step(s, e), p)
    ensures CanWake(s, p)
  {
    var s' := Step(s, e);
    var es :| Legal(s', es) && p !in After(s', es).blocked;
    var _ := Then(s, e, s', es, After(s', es));
  }

  /** Whoever is to unblock it does; or the broadcaster goes on; or a newcomer signals. */
  lemma {:induction false} NotLostCanWake(s: State, p: Pid)
    requires LockFits(s) && EntriesFit(s) && PcOf(s, p).Asleep? && p in s.blocked && !Lost(s, p)
    ensures CanWake(s, p)
    decreases |s.queue|, s.broadcaster.Some? && s.broadcaster.value in s.duty
  {
    var t := PcOf(s, p).t;
    if Pending(s, t) {
      var q :| q in s.duty && s.duty[q] == t;
      var s' := Step(s, UnblockBy(q));
      assert s.owners[t] == p;
      assert Legal(s', []) && p !in After(s', []).blocked;
      StepThenWakes(s, UnblockBy(q), p);
    } else {
      var e := NextHelp(s);
      var s' := Step(s, e);
      StepKeepsLockFits(s, e);
      StepKeepsEntriesFit(s, e);
      NothingElseLoses(s, e, p);
      assert p in s'.blocked by {
        assert e.UnblockBy? ==> OwnerWaits(s, s.duty[e.p]) && Pending(s, s.duty[e.p]);
      }
      NotLostCanWake(s', p);
      StepThenWakes(s, e, p);
    }
  }

  lemma NextHelp(s: State) returns (e: Event)
    requires EntriesFit(s) && s.queue != []
    ensures Enabled(s, e) && (e.SignalBy? || e.DequeueBy? || e.UnblockBy?)
    ensures e.UnblockBy? ==> s.broadcaster == Some(e.p)
    ensures e.SignalBy? || e.DequeueBy? ==> e.p !in s.duty
  {
    match s.broadcaster
    case None =>
      var q := Newcomer(s.pcs.Keys + s.duty.Keys);
      e := SignalBy(q);
    case Some(b) =>
      e := if b in s.duty then UnblockBy(b) else DequeueBy(b);
  }

  lemma {:induction false} Newcomer(known: set<Pid>) returns (q: Pid)
    ensures q !in known && forall p :: p in known ==> p < q
    decreases known
  {
    if known == {} {
      q := 0;
    } else {
      var p :| p in known;
      var r := Newcomer(known - {p});
      q := if r <= p then p + 1 else r;
      assert forall x :: x in known ==> x == p || x in known - {p};
    }
  }

  ghost predicate Reaches(s0: State, s: State) {
    exists es :: Legal(s0, es) && After(s0, es) == s
  }

  /** Process 1 is about to block; process 2 has dequeued its entry and not unblocked it. */
  const HALF_SIGNALLED :=
    State(M.Lock(false, []), map[1 := Blocking(0)], {}, [], [1], [0], map[2 := 0], None)

  const ENQUEUED :=
    State(M.Lock(false, []), map[1 := Blocking(0)], {}, [0], [1], [], map[], None)

  lemma EnqueuedIsReached(es: seq<Event>, end: State) returns (es': seq<Event>)
    requires Legal(ENQUEUED, es) && After(ENQUEUED, es) == end
    ensures Legal(INITIAL, es') && After(INITIAL, es') == end
  {
    var a := INITIAL.(lock := M.Lock(true, []), pcs := map[1 := Inside]);
    var b := INITIAL.(pcs := map[1 := Enqueuing]);
    es' := Then(b, EnqueueBy(1), ENQUEUED, es, end);
    es' := Then(a, WaitBy(1), b, es', end);
    es' := Then(INITIAL, LockBy(1), a, es', end);
  }

  lemma HalfSignalledIsReached(es: seq<Event>, end: State) returns (es': seq<Event>)
    requires Legal(HALF_SIGNALLED, es) && After(HALF_SIGNALLED, es) == end
    ensures Legal(INITIAL, es') && After(INITIAL, es') == end
  {
    es' := Then(ENQUEUED, SignalBy(2), HALF_SIGNALLED, es, end);
    es' := EnqueuedIsReached(es', end);
  }

  /** A process is lost when a whole signal falls between its sync_enqueue and block_process. */
  lemma LostWakeUpIsReachable()
    ensures exists es :: Legal(INITIAL, es) && Lost(After(INITIAL, es), 1)
  {
    var d := HALF_SIGNALLED;
    var e := d.(duty := map[]);
    var f := e.(pcs := map[1 := Asleep(0)], blocked := {1});
    assert Legal(f, []) && After(f, []) == f;
    var es := Then(e, BlockBy(1), f, [], f);
    es := Then(d, UnblockBy(2), e, es, f);
    es := HalfSignalledIsReached(es, f);
  }

  /** It wakes all the same when it blocks between the two halves of the signal. */
  lemma LateBlockCanStillWake()
    ensures exists s, es :: Reaches(INITIAL, s) && PcOf(s, 1).Blocking? && PcOf(s, 1).t !in s.queue
              && Legal(Step(s, BlockBy(1)), es) && PcOf(After(Step(s, BlockBy(1)), es), 1).Inside?
  {
    var d := HALF_SIGNALLED;
    assert Legal(d, []) && After(d, []) == d;
    var es := HalfSignalledIsReached([], d);
    assert Reaches(INITIAL, d);
    var g := d.(pcs := map[1 := Asleep(0)], blocked := {1});
    var h := g.(blocked := {}, duty := map[]);
    var i := h.(lock := M.Lock(true, []), pcs := map[1 := Inside]);
    assert Legal(i, []) && After(i, []) == i;
    es := Then(h, RelockBy(1), i, [], i);
    es := Then(g, UnblockBy(2), h, es, i);
    assert Step(d, BlockBy(1)) == g;
  }

  lemma Then(s: State, e: Event, s': State, es: seq<Event>, end: State) returns (es': seq<Event>)
    requires Enabled(s, e) && Step(s, e) == s' && Legal(s', es) && After(s', es) == end
    ensures Legal(s, es') && After(s, es') == end
  {
    es' := [e] + es;
    assert es'[1..] == es;
  }
}
