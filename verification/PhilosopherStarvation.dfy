/** The exception in PhilosopherTheorems.HungryWaitsForEater is real: inserting a seat and
    removing seats again can leave a philosopher hungry, blocked and alone until another comes. */
module PhilosopherStarvation {
  import M = Mutex
  import opened Ring
  import opened Philosophers

  ghost predicate Reaches(t: Table, t': Table) {
    Shape(t) && exists ls :: Legal(t, ls) && After(t, ls) == t'
  }

  lemma {:induction false} Append(t: Table, ls: seq<Label>, l: Label)
    requires Shape(t) && Legal(t, ls) && Enabled(After(t, ls), l)
    ensures Legal(t, ls + [l]) && After(t, ls + [l]) == Step(After(t, ls), l)
    decreases |ls|
  {
    if ls == [] {
      assert [l][1..] == [] && Legal(Step(t, l), []);
    } else {
      Append(Step(t, ls[0]), ls[1..], l);
      assert (ls + [l])[1..] == ls[1..] + [l];
    }
  }

  lemma Extend(t: Table, t': Table, l: Label, next: Table)
    requires Reaches(t, t') && Shape(t') && Enabled(t', l) && next == Step(t', l)
    ensures Reaches(t, next)
  {
    var ls :| Legal(t, ls) && After(t, ls) == t';
    Append(t, ls, l);
  }

  /** Between commands, with critical_m free. */
  predicate Quiet(t: Table) {
    Shape(t) && t.cmd == Listen && t.crit == Free
  }

  function Added(t: Table): Table
    requires Shape(t) && t.count < MAX_PHILOSOPHERS
  {
    var n := t.count;
    t.(count := n + 1, moods := t.moods[n := Thinking], dies := t.dies[n := false],
       muts := t.muts[n := M.Lock(true, [])], pcs := t.pcs[n := Away],
       bereft := t.bereft + Orphans(n, t.moods))
  }

  lemma AddRun(t0: Table, t: Table)
    requires Reaches(t0, t) && Quiet(t) && t.count < MAX_PHILOSOPHERS
    ensures Reaches(t0, Added(t))
  {
    var n, t' := t.count, Added(t);
    var a := t.(crit := Commander, cmd := AddCheck);
    assert Reaches(t0, a) by { Extend(t0, t, Add, a); }
    var b := a.(cmd := AddOpen, count := n + 1, dies := t'.dies, bereft := t'.bereft);
    assert Reaches(t0, b) by { Extend(t0, a, Act, b); }
    var c := b.(cmd := AddLock, muts := t.muts[n := M.Lock(false, [])]);
    assert Reaches(t0, c) by { Extend(t0, b, Act, c); }
    var d := c.(cmd := AddSpawn, muts := t.muts[n := M.Lock(true, [])]);
    assert Reaches(t0, d) by { Extend(t0, c, Act, d); }
    var e := d.(cmd := AddUnlock, moods := t'.moods, pcs := t'.pcs);
    assert Reaches(t0, e) by { Extend(t0, d, Act, e); }
    assert Reaches(t0, t') by { Extend(t0, e, Act, t'); }
  }

  /** A philosopher about to start its round, unmarked. */
  predicate Idle(t: Table, i: nat) {
    Quiet(t) && i < t.count && t.pcs[i].Away? && !t.dies[i] && t.muts[i] == M.Lock(true, [])
  }

  /** Through should_die and up to the test in take_forks. */
  lemma HungerRun(t0: Table, t: Table, i: nat, t': Table)
    requires Reaches(t0, t) && Idle(t, i)
    requires t' == t.(moods := t.moods[i := Hungry], pcs := t.pcs[i := TestSelf], crit := Philosopher(i))
    ensures Reaches(t0, t')
  {
    var a := t.(pcs := t.pcs[i := ReadDie], crit := Philosopher(i));
    assert Reaches(t0, a) by { Extend(t0, t, Move(i), a); }
    var b := a.(pcs := t.pcs[i := StayUnlock]);
    assert Reaches(t0, b) by { Extend(t0, a, Move(i), b); }
    var c := t.(pcs := t.pcs[i := Approach]);
    assert Reaches(t0, c) by { Extend(t0, b, Move(i), c); }
    var d := a.(pcs := t.pcs[i := SetHungry]);
    assert Reaches(t0, d) by { Extend(t0, c, Move(i), d); }
    assert Reaches(t0, t') by { Extend(t0, d, Move(i), t'); }
  }

  /** From the unlock in take_forks to past the lock of the seat mutex, or blocked on it. */
  lemma SeatRun(t0: Table, t: Table, i: nat, t': Table)
    requires Reaches(t0, t) && Shape(t) && i < MAX_PHILOSOPHERS && t.pcs[i].TakeUnlock?
    requires t' == t.(crit := Free, pcs := t.pcs[i := if t.muts[i].locked then SeatBlocked else Dine],
                      muts := t.muts[i := M.Acquire(t.muts[i], i)])
    ensures Reaches(t0, t')
  {
    var a := t.(pcs := t.pcs[i := SeatLock], crit := Free);
    assert Reaches(t0, a) by { Extend(t0, t, Move(i), a); }
    assert Reaches(t0, t') by { Extend(t0, a, Move(i), t'); }
  }

  lemma SitRun(t0: Table, t: Table, i: nat, t': Table)
    requires Reaches(t0, t) && Idle(t, i) && MayEat(t.count, t.moods[i := Hungry], i)
    requires t' == t.(moods := t.moods[i := Eating], pcs := t.pcs[i := Dine], bereft := t.bereft - {i})
    ensures Reaches(t0, t')
  {
    var a := t.(moods := t.moods[i := Hungry], pcs := t.pcs[i := TestSelf], crit := Philosopher(i));
    HungerRun(t0, t, i, a);
    var b := t'.(pcs := t.pcs[i := GrantSelf], crit := Philosopher(i));
    assert Reaches(t0, b) by { Extend(t0, a, Move(i), b); }
    var c := b.(pcs := t.pcs[i := TakeUnlock], muts := t.muts[i := M.Lock(false, [])]);
    assert Reaches(t0, c) by { Extend(t0, b, Move(i), c); }
    assert t.muts == c.muts[i := M.Lock(true, [])];
    SeatRun(t0, c, i, t');
  }

  lemma StarveRun(t0: Table, t: Table, i: nat, t': Table)
    requires Reaches(t0, t) && Idle(t, i) && !MayEat(t.count, t.moods[i := Hungry], i)
    requires t' == t.(moods := t.moods[i := Hungry], pcs := t.pcs[i := SeatBlocked],
                      muts := t.muts[i := M.Lock(true, [i])], bereft := t.bereft - {i})
    ensures Reaches(t0, t')
  {
    var a := t.(moods := t.moods[i := Hungry], pcs := t.pcs[i := TestSelf], crit := Philosopher(i));
    HungerRun(t0, t, i, a);
    var b := a.(pcs := t.pcs[i := TakeUnlock], bereft := t.bereft - {i});
    assert Reaches(t0, b) by { Extend(t0, a, Move(i), b); }
    assert M.Acquire(b.muts[i], i) == M.Lock(true, [i]);
    assert b.pcs[i := SeatBlocked] == t'.pcs;
    SeatRun(t0, b, i, t');
  }

  /** The first half of put_forks, with nobody hungry on the left. */
  lemma RiseRun(t0: Table, t: Table, i: nat, t': Table)
    requires Reaches(t0, t) && Quiet(t) && i < t.count && t.pcs[i].Dine? && !t.moods[Left(i, t.count)].Hungry?
    requires t' == t.(moods := t.moods[i := Thinking], pcs := t.pcs[i := TestRight], crit := Philosopher(i),
                      bereft := t.bereft - {Left(i, t.count)})
    ensures Reaches(t0, t')
  {
    var a := t.(pcs := t.pcs[i := SetThinking], crit := Philosopher(i));
    assert Reaches(t0, a) by { Extend(t0, t, Move(i), a); }
    var b := a.(pcs := t.pcs[i := TestLeft], moods := t'.moods);
    assert Reaches(t0, b) by { Extend(t0, a, Move(i), b); }
    assert Reaches(t0, t') by { Extend(t0, b, Move(i), t'); }
  }

  /** The second half, with nobody hungry on the right. */
  lemma StepBackRun(t0: Table, t: Table, i: nat, t': Table)
    requires Reaches(t0, t) && Shape(t) && i < t.count && t.pcs[i].TestRight? && !t.moods[Right(i, t.count)].Hungry?
    requires t' == t.(pcs := t.pcs[i := Away], crit := Free, bereft := t.bereft - {Right(i, t.count)})
    ensures Reaches(t0, t')
  {
    var a := t.(pcs := t.pcs[i := PutUnlock], bereft := t'.bereft);
    assert Reaches(t0, a) by { Extend(t0, t, Move(i), a); }
    assert Reaches(t0, t') by { Extend(t0, a, Move(i), t'); }
  }

  predicate NobodyEats(t: Table) {
    forall k :: 0 <= k < |t.moods| ==> !t.moods[k].Eating?
  }

  /** The last philosopher leaves once it is marked. */
  lemma DepartRun(t0: Table, t: Table, t': Table)
    requires Reaches(t0, t) && Shape(t) && t.count > 0 && t.crit == Free
    requires t.pcs[t.count - 1].Away? && t.dies[t.count - 1] && NobodyEats(t)
    requires var n := t.count - 1;
             t' == t.(count := n, moods := t.moods[n := Dying], dies := t.dies[n := false],
                      muts := t.muts[n := M.Lock(false, [])], pcs := t.pcs[n := Absent])
    ensures Reaches(t0, t')
  {
    var i := t.count - 1;
    var a := t.(pcs := t.pcs[i := ReadDie], crit := Philosopher(i));
    assert Reaches(t0, a) by { Extend(t0, t, Move(i), a); }
    var b := a.(pcs := t.pcs[i := DieLoop], moods := t'.moods);
    assert Reaches(t0, b) by { Extend(t0, a, Move(i), b); }
    var c := b.(pcs := t.pcs[i := Leave]);
    assert Reaches(t0, c) by { Extend(t0, b, Move(i), c); }
    var d := t'.(pcs := t.pcs[i := LeaveUnlock], crit := Philosopher(i));
    assert Reaches(t0, d) by { Extend(t0, c, Move(i), d); }
    assert Reaches(t0, t') by { Extend(t0, d, Move(i), t'); }
  }

  lemma RemoveRun(t0: Table, t: Table, t': Table)
    requires Reaches(t0, t) && t.count > 0 && Idle(t, t.count - 1) && NobodyEats(t)
    requires var n := t.count - 1;
             t' == t.(count := n, moods := t.moods[n := Dying], muts := t.muts[n := M.Lock(false, [])],
                      pcs := t.pcs[n := Absent])
    ensures Reaches(t0, t')
  {
    var n := t.count - 1;
    var c := t.(cmd := RemoveWait(t.count), dies := t.dies[n := true]);
    MarkRun(t0, t, c);
    assert t.dies == t.dies[n := true][n := false];
    var d := t'.(cmd := RemoveWait(t.count));
    DepartRun(t0, c, d);
    ReturnRun(t0, d, t');
  }

  /** remove_philosopher up to its wait. */
  lemma MarkRun(t0: Table, t: Table, t': Table)
    requires Reaches(t0, t) && Quiet(t) && t.count > 0
    requires t' == t.(cmd := RemoveWait(t.count), dies := t.dies[t.count - 1 := true])
    ensures Reaches(t0, t')
  {
    var a := t.(cmd := Mark, crit := Commander);
    assert Reaches(t0, a) by { Extend(t0, t, Remove, a); }
    var b := a.(cmd := RemoveLoop(t.count), dies := t'.dies);
    assert Reaches(t0, b) by { Extend(t0, a, Act, b); }
    assert Reaches(t0, t') by { Extend(t0, b, Act, t'); }
  }

  /** And from its wait, the count having changed. */
  lemma ReturnRun(t0: Table, t: Table, t': Table)
    requires Reaches(t0, t) && Shape(t) && t.crit == Free && t.cmd.RemoveWait? && t.cmd.seen != t.count
    requires t' == t.(cmd := Listen)
    ensures Reaches(t0, t')
  {
    var a := t.(cmd := RemoveLoop(t.cmd.seen), crit := Commander);
    assert Reaches(t0, a) by { Extend(t0, t, Act, a); }
    var b := a.(cmd := RemoveUnlock(t.cmd.seen));
    assert Reaches(t0, b) by { Extend(t0, a, Act, b); }
    assert Reaches(t0, t') by { Extend(t0, b, Act, t'); }
  }

  // The scene, act by act

  /** n philosophers about to start their rounds and nobody else. */
  predicate Fresh(t: Table, n: nat) {
    && Quiet(t) && t.count == n && NobodyEats(t)
    && (forall k :: 0 <= k < n ==> Idle(t, k) && t.moods[k].Thinking?)
    && (forall k :: n <= k < MAX_PHILOSOPHERS ==> t.pcs[k].Absent?)
  }

  lemma {:induction false} FreshRun(n: nat) returns (t: Table)
    requires n <= MAX_PHILOSOPHERS
    ensures Reaches(INITIAL, t) && Fresh(t, n)
  {
    if n == 0 {
      t := INITIAL;
      assert Legal(t, []) && After(t, []) == t;
    } else {
      var u := FreshRun(n - 1);
      AddRun(INITIAL, u);
      t := Added(u);
      forall k | 0 <= k < n
        ensures Idle(t, k) && t.moods[k].Thinking?
      {
        assert k < n - 1 ==> Idle(u, k);
      }
    }
  }

  /** Philosopher 0 hungry and blocked, philosophers 1 to n - 1 idle, nobody else. */
  predicate Forsaken(t: Table, n: nat) {
    && Quiet(t) && t.count == n > 0 && NobodyEats(t)
    && t.moods[0].Hungry? && t.pcs[0].SeatBlocked?
    && (forall k :: 1 <= k < n ==> Idle(t, k))
    && (forall k :: n <= k < MAX_PHILOSOPHERS ==> t.pcs[k].Absent?)
  }

  /** Three philosophers; the third eats, the first is blocked because of it, the second idles. */
  predicate SecondIdles(t: Table) {
    && Quiet(t) && t.count == 3 && Idle(t, 1)
    && t.moods[0].Hungry? && t.pcs[0].SeatBlocked?
    && t.moods[1].Thinking?
    && t.moods[2].Eating? && t.pcs[2].Dine? && t.muts[2] == M.Lock(true, []) && !t.dies[2]
    && (forall k :: 0 <= k < MAX_PHILOSOPHERS && k != 2 ==> !t.moods[k].Eating?)
    && (forall k :: 3 <= k < MAX_PHILOSOPHERS ==> t.pcs[k].Absent?)
  }

  lemma FirstIsBlocked() returns (t: Table)
    ensures Reaches(INITIAL, t) && SecondIdles(t)
  {
    var c := FreshRun(3);
    assert Idle(c, 0) && Idle(c, 1) && Idle(c, 2);
    var d := c.(moods := c.moods[2 := Eating], pcs := c.pcs[2 := Dine], bereft := c.bereft - {2});
    SitRun(INITIAL, c, 2, d);
    t := d.(moods := d.moods[0 := Hungry], pcs := d.pcs[0 := SeatBlocked],
            muts := d.muts[0 := M.Lock(true, [0])], bereft := d.bereft - {0});
    assert Idle(d, 0) && d.moods[0 := Hungry][2].Eating? && Left(0, 3) == 2;
    StarveRun(INITIAL, d, 0, t);
  }

  lemma FourthSeatForsakesTheFirst() returns (t: Table)
    ensures Reaches(INITIAL, t) && Forsaken(t, 4)
  {
    var e := FirstIsBlocked();
    AddRun(INITIAL, e);
    var f := Added(e);
    var g := f.(moods := f.moods[2 := Thinking], pcs := f.pcs[2 := TestRight], crit := Philosopher(2),
                bereft := f.bereft - {1});
    RiseRun(INITIAL, f, 2, g);
    t := g.(pcs := g.pcs[2 := Away], crit := Free, bereft := g.bereft - {3});
    StepBackRun(INITIAL, g, 2, t);
  }

  lemma {:induction false} OthersLeave(t: Table, n: nat) returns (t': Table)
    requires Reaches(INITIAL, t) && Forsaken(t, n)
    ensures Reaches(INITIAL, t') && Forsaken(t', 1)
    decreases n
  {
    if n == 1 {
      t' := t;
    } else {
      var u := t.(count := n - 1, moods := t.moods[n - 1 := Dying], muts := t.muts[n - 1 := M.Lock(false, [])],
                  pcs := t.pcs[n - 1 := Absent]);
      RemoveRun(INITIAL, t, u);
      forall k | 1 <= k < n - 1
        ensures Idle(u, k)
      {
        assert Idle(t, k);
      }
      t' := OthersLeave(u, n - 1);
    }
  }

  /** Philosopher 0 is alone, hungry and blocked; the commander listens, pauses, or waits in
      remove_philosopher for it to leave. */
  predicate Stranded(t: Table) {
    && Shape(t) && t.count == 1 && t.moods[0].Hungry? && t.pcs[0].SeatBlocked?
    && (forall k :: 1 <= k < MAX_PHILOSOPHERS ==> t.pcs[k].Absent?)
    && match t.cmd
       case Listen | RemoveWait(1) => t.crit == Free
       case Mark | Paused | RemoveLoop(1) => t.crit == Commander
       case _ => false
  }

  /** It stays so in every run in which no seat is added: no philosopher ever takes a step, and a
      remove_philosopher that is begun never returns. */
  lemma {:induction false} StrandedUntilAdd(t: Table, ls: seq<Label>)
    requires Stranded(t) && Legal(t, ls) && forall i :: 0 <= i < |ls| ==> !ls[i].Add?
    ensures Stranded(After(t, ls)) && forall i: nat :: !Enabled(After(t, ls), Move(i))
    decreases |ls|
  {
    if ls != [] {
      assert Stranded(Step(t, ls[0]));
      StrandedUntilAdd(Step(t, ls[0]), ls[1..]);
    }
  }

  /** Seats 0, 1, 2; seat 2 eats, so seat 0 goes hungry; seat 3 comes between them; seat 2
      gets up and tests 1 and 3; seats 3, 2, 1 leave. Philosopher 0 is the only one left,
      waits on its seat, and no philosopher can take a step until a seat is added. */
  lemma StarvationIsReachable()
    ensures exists ls :: Legal(INITIAL, ls) && Stranded(After(INITIAL, ls)) && After(INITIAL, ls).cmd == Listen
  {
    var t := FourthSeatForsakesTheFirst();
    var t' := OthersLeave(t, 4);
    var ls :| Legal(INITIAL, ls) && After(INITIAL, ls) == t';
  }
}
