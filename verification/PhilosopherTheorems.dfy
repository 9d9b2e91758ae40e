/** What the dining philosophers promise over every run from an empty table. */
module PhilosopherTheorems {
  import M = Mutex
  import opened Ring
  import opened Philosophers
  import opened PhilosopherInvariants

  lemma Reached(ls: seq<Label>) returns (t: Table)
    requires Legal(INITIAL, ls)
    ensures t == After(INITIAL, ls) && Control(t) && Manners(t)
  {
    t := After(INITIAL, ls);
    forall k | 0 <= k < MAX_PHILOSOPHERS
      ensures SeatFits(INITIAL, k)
    {}
    RunKeepsInvariants(INITIAL, ls);
  }

  /** No two distinct neighbours eat, at any point of any run, however many seats come and
      go; and at most one process is inside critical_m. */
  lemma NeighboursNeverBothEat(ls: seq<Label>)
    requires Legal(INITIAL, ls)
    ensures var t := After(INITIAL, ls);
            && Apart(t.count, t.moods)
            && (forall i, j :: 0 <= i < j < MAX_PHILOSOPHERS ==> !(Critical(t.pcs[i]) && Critical(t.pcs[j])))
  {
    var t := Reached(ls);
    forall i, j | 0 <= i < j < MAX_PHILOSOPHERS
      ensures !(Critical(t.pcs[i]) && Critical(t.pcs[j]))
    {
      assert SeatFits(t, i) && SeatFits(t, j);
    }
  }

  /** Whenever critical_m is free, a hungry philosopher has a neighbour that is eating and not
      blocked, unless an insertion orphaned it (Ring.Orphaned) since it was last tested. */
  lemma HungryWaitsForEater(ls: seq<Label>, i: nat)
    requires Legal(INITIAL, ls)
    requires var t := After(INITIAL, ls);
             t.crit == Free && i < t.count && t.moods[i].Hungry? && i !in t.bereft
    ensures var t := After(INITIAL, ls);
            exists j: nat :: Adjacent(t.count, i, j) && Eats(t.moods, j) && (t.pcs[j].SeatLock? || t.pcs[j].Dine?)
  {
    var t := Reached(ls);
    var j: nat :| Adjacent(t.count, i, j) && Eats(t.moods, j);
    assert SeatFits(t, j);
  }

  /** A seat mutex is unlocked only while its seat is EATING and its philosopher has not yet
      locked it in take_forks; past take_forks the philosopher is EATING; no permit is lost
      (a blocked philosopher is HUNGRY unless its grant is being delivered) or doubled (after
      it is taken the mutex is locked and nobody waits). */
  lemma PermitsAreExact(ls: seq<Label>, i: nat)
    requires Legal(INITIAL, ls) && i < MAX_PHILOSOPHERS
    requires !After(INITIAL, ls).pcs[i].Absent? && !After(INITIAL, ls).pcs[i].LeaveUnlock?
    ensures var t := After(INITIAL, ls);
            var pc, mood := t.pcs[i], t.moods[i];
            && (!t.muts[i].locked <==> mood.Eating? && (pc.TakeUnlock? || pc.SeatLock?) && GrantTarget(t) != i)
            && (pc.Dine? || pc.SetThinking? ==> mood.Eating? && t.muts[i] == M.Lock(true, []))
            && (pc.SeatBlocked? ==> (mood.Hungry? <==> GrantTarget(t) != i))
            && (t.muts[i].queue == if pc.SeatBlocked? then [i] else [])
  {
    var t := Reached(ls);
    assert SeatFits(t, i);
  }

  /** remove_philosopher leaves its wait loop only once the count has dropped by one. */
  lemma RemoveReturnsAfterDeparture(ls: seq<Label>)
    requires Legal(INITIAL, ls) && After(INITIAL, ls).cmd.RemoveUnlock?
    ensures var t := After(INITIAL, ls);
            t.count == if t.cmd.seen == 0 then 0 else t.cmd.seen - 1
  {
    var t := Reached(ls);
  }

  /** Every seat beside i eats, and there is one. */
  ghost predicate Surrounded(n: nat, m: seq<Mood>, i: nat) {
    && (exists j: nat :: Adjacent(n, i, j))
    && (forall j: nat :: Adjacent(n, i, j) ==> Eats(m, j))
  }

  /** A marked philosopher in should_die waits exactly while all its neighbours eat, which one
      eating neighbour is when it is the only one; otherwise its next step is to leave. */
  lemma DyingWaitsIffSurrounded(ls: seq<Label>, i: nat)
    requires Legal(INITIAL, ls) && i < MAX_PHILOSOPHERS && After(INITIAL, ls).pcs[i].DieLoop?
    ensures var t := After(INITIAL, ls);
            && Enabled(t, Move(i))
            && Step(t, Move(i)).pcs[i] == if Surrounded(t.count, t.moods, i) then DieWait else Leave
  {
    var t := Reached(ls);
    assert SeatFits(t, i);
    var left, right := Left(i, t.count), Right(i, t.count);
    if t.count > 1 {
      assert Adjacent(t.count, i, left) && Adjacent(t.count, i, right);
    }
  }

  /** Leaving takes the seat, the mark and the count away, and lets the others in. */
  lemma LeavingGivesUpTheSeat(ls: seq<Label>, i: nat)
    requires Legal(INITIAL, ls) && i < MAX_PHILOSOPHERS && After(INITIAL, ls).pcs[i].Leave?
    ensures var t := After(INITIAL, ls);
            var t' := Step(t, Move(i));
            && t.count > 0 && i == t.count - 1 && t'.count == t.count - 1 && !t'.dies[i]
            && t'.pcs[i].LeaveUnlock? && t'.crit == Philosopher(i)
            && Step(t', Move(i)).pcs[i].Absent? && Step(t', Move(i)).crit == Free
            && t'.moods == t.moods
            && forall j: nat :: j < MAX_PHILOSOPHERS && j != i ==>
                 t'.pcs[j] == t.pcs[j] && t'.muts[j] == t.muts[j] && t'.dies[j] == t.dies[j]
  {
    var t := Reached(ls);
    assert SeatFits(t, i);
  }
}
