/** Every step of every philosopher and of the commander keeps the invariants of the table. */
module PhilosopherInvariants {
  import opened Ring
  import opened Philosophers

  lemma AddKeepsControl(t: Table)
    requires Control(t) && Enabled(t, Act) && (t.cmd.AddCheck? || Adding(t.cmd))
    ensures Control(Step(t, Act))
  {
    var t' := Step(t, Act);
    forall k | 0 <= k < MAX_PHILOSOPHERS
      ensures SeatFits(t', k)
    {
      assert SeatFits(t, k);
    }
  }

  lemma CommanderKeepsControl(t: Table)
    requires Control(t) && Enabled(t, Act)
    ensures Control(Step(t, Act))
  {
    if t.cmd.AddCheck? || Adding(t.cmd) {
      AddKeepsControl(t);
    } else {
      var t' := Step(t, Act);
      forall k | 0 <= k < MAX_PHILOSOPHERS
        ensures SeatFits(t', k)
      {
        assert SeatFits(t, k);
      }
    }
  }

  predicate Grants(pc: Pc) {
    pc.GrantSelf? || pc.GrantLeft? || pc.GrantRight?
  }

  /** A philosopher that only moves on, taking or giving back critical_m. */
  lemma GotoKeepsControl(t: Table, i: nat, pc: Pc, crit: Holder)
    requires Control(t) && i < MAX_PHILOSOPHERS
    requires t.crit == Free || t.crit == Philosopher(i)
    requires crit == if Critical(pc) then Philosopher(i) else Free
    requires !Grants(t.pcs[i]) && !Grants(pc)
    requires MoodFits(pc, t.moods[i]) && PermitFits(pc, t.moods[i], t.muts[i], i, false)
    requires MarkFits(pc, t.dies[i], i, t.count, t.cmd) && PresenceFits(pc, i, t.count, Adding(t.cmd))
    requires pc.Leave? ==> !(Eats(t.moods, Left(i, t.count)) && Eats(t.moods, Right(i, t.count)))
    ensures Control(Goto(t, i, pc).(crit := crit))
  {
    var t' := Goto(t, i, pc).(crit := crit);
    forall k | 0 <= k < MAX_PHILOSOPHERS
      ensures SeatFits(t', k)
    {
      assert SeatFits(t, k);
    }
  }

  /** A change of the holder's own mood to anything but Eating. */
  lemma MoodKeepsControl(t: Table, i: nat, mood: Mood, pc: Pc)
    requires Control(t) && t.crit == Philosopher(i) && !Grants(t.pcs[i]) && !Grants(pc) && Critical(pc) && !pc.Leave?
    requires MoodFits(pc, mood) && PermitFits(pc, mood, t.muts[i], i, false)
    requires MarkFits(pc, t.dies[i], i, t.count, t.cmd) && PresenceFits(pc, i, t.count, Adding(t.cmd))
    ensures Control(Goto(t, i, pc).(moods := t.moods[i := mood]))
  {
    var t' := Goto(t, i, pc).(moods := t.moods[i := mood]);
    forall k | 0 <= k < MAX_PHILOSOPHERS
      ensures SeatFits(t', k)
    {
      assert SeatFits(t, k);
    }
  }

  predicate Testing(t: Table, i: nat, j: nat, pc: Pc)
    requires Shape(t) && i < MAX_PHILOSOPHERS
  {
    || (t.pcs[i].TestSelf? && pc.GrantSelf? && j == i)
    || (t.pcs[i].TestLeft? && pc.GrantLeft? && j == Left(i, t.count))
    || (t.pcs[i].TestRight? && pc.GrantRight? && j == Right(i, t.count))
  }

  /** The successful half of test(j). */
  lemma EatKeepsControl(t: Table, i: nat, j: nat, pc: Pc, bereft: set<nat>)
    requires Control(t) && t.crit == Philosopher(i) && i < t.count && j < t.count && t.moods[j].Hungry?
    requires Testing(t, i, j, pc)
    ensures Control(Goto(t, i, pc).(moods := t.moods[j := Eating], bereft := bereft))
  {
    var t' := Goto(t, i, pc).(moods := t.moods[j := Eating], bereft := bereft);
    forall k | 0 <= k < MAX_PHILOSOPHERS
      ensures SeatFits(t', k)
    {
      EatKeepsSeat(t, i, j, pc, bereft, k);
    }
  }

  lemma EatKeepsSeat(t: Table, i: nat, j: nat, pc: Pc, bereft: set<nat>, k: nat)
    requires Shape(t) && t.crit == Philosopher(i) && i < t.count && j < t.count && t.moods[j].Hungry?
    requires Testing(t, i, j, pc) && k < MAX_PHILOSOPHERS
    requires SeatFits(t, i) && SeatFits(t, j) && SeatFits(t, k)
    ensures SeatFits(Goto(t, i, pc).(moods := t.moods[j := Eating], bereft := bereft), k)
  {
    var t' := Goto(t, i, pc).(moods := t.moods[j := Eating], bereft := bereft);
    assert GrantTarget(t) == MAX_PHILOSOPHERS && GrantTarget(t') == j;
    assert !t'.pcs[k].Leave?;
  }

  lemma GrantKeepsControl(t: Table, i: nat, j: nat, pc: Pc)
    requires Control(t) && t.crit == Philosopher(i) && i < MAX_PHILOSOPHERS && Grants(t.pcs[i]) && j == GrantTarget(t)
    requires pc == if t.pcs[i].GrantSelf? then TakeUnlock else if t.pcs[i].GrantLeft? then TestRight else PutUnlock
    requires j < MAX_PHILOSOPHERS
    ensures Control(Grant(t, i, j, pc))
  {
    var t' := Grant(t, i, j, pc);
    assert SeatFits(t, i) && SeatFits(t, j);
    forall k | 0 <= k < MAX_PHILOSOPHERS
      ensures SeatFits(t', k)
    {
      assert SeatFits(t, k);
    }
  }

  lemma SeatLockKeepsControl(t: Table, i: nat)
    requires Control(t) && i < MAX_PHILOSOPHERS && t.pcs[i].SeatLock?
    ensures Control(MovePhilosopher(t, i))
  {
    var t' := MovePhilosopher(t, i);
    assert SeatFits(t, i);
    forall k | 0 <= k < MAX_PHILOSOPHERS
      ensures SeatFits(t', k)
    {
      assert SeatFits(t, k);
    }
  }

  lemma LeaveKeepsControl(t: Table, i: nat)
    requires Control(t) && i < MAX_PHILOSOPHERS && t.pcs[i].Leave?
    ensures Control(MovePhilosopher(t, i))
  {
    var t' := MovePhilosopher(t, i);
    assert SeatFits(t, i);
    forall k | 0 <= k < MAX_PHILOSOPHERS
      ensures SeatFits(t', k)
    {
      assert SeatFits(t, k);
    }
  }

  lemma TestKeepsControl(t: Table, i: nat, j: nat, granting: Pc, skipping: Pc)
    requires Control(t) && t.crit == Philosopher(i) && i < t.count && j < t.count
    requires || (t.pcs[i].TestSelf? && j == i && granting.GrantSelf? && skipping.TakeUnlock?)
             || (t.pcs[i].TestLeft? && j == Left(i, t.count) && granting.GrantLeft? && skipping.TestRight?)
             || (t.pcs[i].TestRight? && j == Right(i, t.count) && granting.GrantRight? && skipping.PutUnlock?)
    ensures Control(Test(t, i, j, granting, skipping))
  {
    var bereft := t.bereft - {j};
    if MayEat(t.count, t.moods, j) {
      EatKeepsControl(t, i, j, granting, bereft);
    } else {
      assert SeatFits(t, i);
      GotoKeepsControl(t.(bereft := bereft), i, skipping, t.crit) by {
        BereftIsHistory(t, bereft);
      }
    }
  }

  lemma BereftIsHistory(t: Table, bereft: set<nat>)
    requires Control(t)
    ensures Control(t.(bereft := bereft))
  {
    forall k | 0 <= k < MAX_PHILOSOPHERS
      ensures SeatFits(t.(bereft := bereft), k)
    {
      assert SeatFits(t, k);
    }
  }

  predicate InShouldDie(pc: Pc) {
    pc.Away? || pc.ReadDie? || pc.StayUnlock? || pc.DieLoop? || pc.DieWait? || pc.Leave? || pc.LeaveUnlock?
  }

  predicate InTakeForks(pc: Pc) {
    pc.Approach? || pc.SetHungry? || pc.TestSelf? || pc.GrantSelf? || pc.TakeUnlock? || pc.SeatLock?
  }

  lemma ShouldDieKeepsControl(t: Table, i: nat)
    requires Control(t) && Enabled(t, Move(i)) && InShouldDie(t.pcs[i])
    ensures Control(Step(t, Move(i)))
  {
    assert SeatFits(t, i);
    match t.pcs[i]
    case Away => GotoKeepsControl(t, i, ReadDie, Philosopher(i));
    case ReadDie =>
      if t.dies[i] { MoodKeepsControl(t, i, Dying, DieLoop); } else { GotoKeepsControl(t, i, StayUnlock, t.crit); }
    case StayUnlock => GotoKeepsControl(t, i, Approach, Free);
    case DieLoop =>
      if Eats(t.moods, Left(i, t.count)) && Eats(t.moods, Right(i, t.count)) {
        GotoKeepsControl(t, i, DieWait, Free);
      } else {
        GotoKeepsControl(t, i, Leave, t.crit);
      }
    case DieWait => GotoKeepsControl(t, i, DieLoop, Philosopher(i));
    case Leave => LeaveKeepsControl(t, i);
    case LeaveUnlock => GotoKeepsControl(t, i, Absent, Free);
  }

  lemma TakeForksKeepsControl(t: Table, i: nat)
    requires Control(t) && Enabled(t, Move(i)) && InTakeForks(t.pcs[i])
    ensures Control(Step(t, Move(i)))
  {
    assert SeatFits(t, i);
    match t.pcs[i]
    case Approach => GotoKeepsControl(t, i, SetHungry, Philosopher(i));
    case SetHungry => MoodKeepsControl(t, i, Hungry, TestSelf);
    case TestSelf => TestKeepsControl(t, i, i, GrantSelf, TakeUnlock);
    case GrantSelf => GrantKeepsControl(t, i, i, TakeUnlock);
    case TakeUnlock => GotoKeepsControl(t, i, SeatLock, Free);
    case SeatLock => SeatLockKeepsControl(t, i);
  }

  lemma PutForksKeepsControl(t: Table, i: nat)
    requires Control(t) && Enabled(t, Move(i)) && !InShouldDie(t.pcs[i]) && !InTakeForks(t.pcs[i])
    ensures Control(Step(t, Move(i)))
  {
    assert SeatFits(t, i);
    var left, right := Left(i, t.count), Right(i, t.count);
    match t.pcs[i]
    case Dine => GotoKeepsControl(t, i, SetThinking, Philosopher(i));
    case SetThinking => MoodKeepsControl(t, i, Thinking, TestLeft);
    case TestLeft => TestKeepsControl(t, i, left, GrantLeft, TestRight);
    case GrantLeft => GrantKeepsControl(t, i, left, TestRight);
    case TestRight => TestKeepsControl(t, i, right, GrantRight, PutUnlock);
    case GrantRight => GrantKeepsControl(t, i, right, PutUnlock);
    case PutUnlock => GotoKeepsControl(t, i, Away, Free);
  }

  lemma CommanderKeepsManners(t: Table)
    requires Control(t) && Manners(t) && Enabled(t, Act)
    ensures Manners(Step(t, Act))
  {
    var t' := Step(t, Act);
    var except := t.bereft + Untested(t);
    if t.cmd.AddCheck? && t.count < MAX_PHILOSOPHERS {
      assert SeatFits(t, t.count);
      JoinServes(t.count, t.moods, except);
      assert Untested(t') == Untested(t) == {};
      ServedMonotone(t'.count, t'.moods, except + Orphans(t.count, t.moods), t'.bereft);
    } else if t.cmd.AddSpawn? {
      assert SeatFits(t, t.count - 1);
      FastingKeepsApart(t.count, t.moods, t.count - 1, Thinking);
      QuietServes(t.count, t.moods, except, t.count - 1, Thinking);
    }
    assert t.bereft + {} == t.bereft;
  }

  lemma TestKeepsManners(t: Table, i: nat, j: nat, granting: Pc, skipping: Pc)
    requires Control(t) && Manners(t) && t.crit == Philosopher(i) && i < t.count && j < t.count
    requires || (t.pcs[i].TestSelf? && j == i && granting.GrantSelf? && skipping.TakeUnlock?)
             || (t.pcs[i].TestLeft? && j == Left(i, t.count) && granting.GrantLeft? && skipping.TestRight?)
             || (t.pcs[i].TestRight? && j == Right(i, t.count) && granting.GrantRight? && skipping.PutUnlock?)
    ensures Manners(Test(t, i, j, granting, skipping))
  {
    var t' := Test(t, i, j, granting, skipping);
    var except := t.bereft + Untested(t);
    if MayEat(t.count, t.moods, j) {
      EatKeepsApart(t.count, t.moods, j);
      EatServes(t.count, t.moods, except, j);
    } else {
      TestedIsServed(t.count, t.moods, except, j);
    }
    ServedMonotone(t'.count, t'.moods, except - {j}, t'.bereft + Untested(t'));
  }

  lemma PhilosopherKeepsManners(t: Table, i: nat)
    requires Control(t) && Manners(t) && Enabled(t, Move(i))
    ensures Manners(Step(t, Move(i)))
  {
    assert SeatFits(t, i);
    var t' := Step(t, Move(i));
    var except := t.bereft + Untested(t);
    var left, right := Left(i, t.count), Right(i, t.count);
    match t.pcs[i]
    case TestSelf => TestKeepsManners(t, i, i, GrantSelf, TakeUnlock);
    case TestLeft => TestKeepsManners(t, i, left, GrantLeft, TestRight);
    case TestRight => TestKeepsManners(t, i, right, GrantRight, PutUnlock);
    case ReadDie =>
      if t.dies[i] {
        FastingKeepsApart(t.count, t.moods, i, Dying);
        QuietServes(t.count, t.moods, except, i, Dying);
        ServedMonotone(t'.count, t'.moods, except + {}, t'.bereft + Untested(t'));
      }
    case SetHungry =>
      FastingKeepsApart(t.count, t.moods, i, Hungry);
      QuietServes(t.count, t.moods, except, i, Hungry);
      ServedMonotone(t'.count, t'.moods, except + {i}, t'.bereft + Untested(t'));
    case SetThinking =>
      FastingKeepsApart(t.count, t.moods, i, Thinking);
      RiseServes(t.count, t.moods, except, i, Thinking);
      ServedMonotone(t'.count, t'.moods, except + {left, right}, t'.bereft + Untested(t'));
    case Leave =>
      LeaveKeeps(t.count, t.moods, except);
      ServedMonotone(t'.count, t'.moods, except, t'.bereft + Untested(t'));
    case _ =>
      OtherMovesKeepManners(t, i);
  }

  lemma OtherMovesKeepManners(t: Table, i: nat)
    requires Control(t) && Manners(t) && Enabled(t, Move(i))
    requires !(t.pcs[i].TestSelf? || t.pcs[i].TestLeft? || t.pcs[i].TestRight? || t.pcs[i].ReadDie?
               || t.pcs[i].SetHungry? || t.pcs[i].SetThinking? || t.pcs[i].Leave?)
    ensures Manners(Step(t, Move(i)))
  {
    var t' := Step(t, Move(i));
    assert SeatFits(t, i);
    assert Untested(t') == Untested(t);
  }

  lemma StepKeepsInvariants(t: Table, l: Label)
    requires Control(t) && Manners(t) && Enabled(t, l)
    ensures Control(Step(t, l)) && Manners(Step(t, l))
  {
    match l
    case Move(i) =>
      PhilosopherKeepsManners(t, i);
      if InShouldDie(t.pcs[i]) {
        ShouldDieKeepsControl(t, i);
      } else if InTakeForks(t.pcs[i]) {
        TakeForksKeepsControl(t, i);
      } else {
        PutForksKeepsControl(t, i);
      }
    case Act =>
      CommanderKeepsControl(t);
      CommanderKeepsManners(t);
    case _ =>
      CommandStartKeepsInvariants(t, l);
  }

  lemma CommandStartKeepsInvariants(t: Table, l: Label)
    requires Control(t) && Manners(t) && Enabled(t, l) && (l.Add? || l.Remove? || l.Pause?)
    ensures Control(Step(t, l)) && Manners(Step(t, l))
  {
    forall k | 0 <= k < MAX_PHILOSOPHERS
      ensures SeatFits(Step(t, l), k)
    {
      assert SeatFits(t, k);
    }
  }

  lemma {:induction false} RunKeepsInvariants(t: Table, ls: seq<Label>)
    requires Control(t) && Manners(t) && Legal(t, ls)
    ensures Control(After(t, ls)) && Manners(After(t, ls))
    decreases |ls|
  {
    if ls != [] {
      StepKeepsInvariants(t, ls[0]);
      RunKeepsInvariants(Step(t, ls[0]), ls[1..]);
    }
  }
}
