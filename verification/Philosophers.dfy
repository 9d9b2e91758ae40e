/** The dining philosophers with seats that come and go. One global mutex (critical_m)
    guards the table; each seat has a mutex used as a binary semaphore: test() unlocks it
    when the seat may eat, its philosopher locks it at the end of take_forks.

    Each philosopher is a program counter over the statements of its loop, split at every
    point where the process can be preempted; so is the commander that adds, removes and
    pauses. critical_m is the abstract lock that Mutex.HandOffIsReleaseThenAcquire shows a
    disciplined mutex to be. A process inside cond_wait may wake at any moment, which covers
    every signal, early, late or lost. */
module Philosophers {
  import M = Mutex
  import opened Ring

  const MAX_PHILOSOPHERS: nat := 16
  const COMMANDER: nat := 16

  /** Where a philosopher is. */
  datatype Pc =
    | Absent
    | Away                                               // asleep before should_die
    | ReadDie | StayUnlock                               // should_die, not marked
    | DieLoop | DieWait | Leave | LeaveUnlock            // should_die, marked
    | Approach                                           // before take_forks
    | SetHungry | TestSelf | GrantSelf | TakeUnlock      // take_forks, holding critical_m
    | SeatLock | SeatBlocked                             // take_forks, at the seat mutex
    | Dine                                               // past take_forks
    | SetThinking | TestLeft | GrantLeft | TestRight | GrantRight | PutUnlock // put_forks

  /** Where the commander is; `seen` is the count remove_philosopher compares with. */
  datatype Command =
    | Listen
    | AddCheck | AddOpen | AddLock | AddSpawn | AddUnlock
    | Mark | RemoveLoop(seen: nat) | RemoveWait(seen: nat) | RemoveUnlock(seen: nat)
    | Paused

  datatype Holder = Free | Philosopher(i: nat) | Commander

  /** The four sequences are the fields of philo_array. `bereft` is history: the seats orphaned
      by an insertion since they were last passed to test(). */
  datatype Table = Table(
    count: nat, moods: seq<Mood>, dies: seq<bool>, muts: seq<M.Lock<nat>>, pcs: seq<Pc>,
    crit: Holder, cmd: Command, bereft: set<nat>)

  datatype Label = Move(i: nat) | Add | Remove | Pause | Act

  const INITIAL := Table(
    0,
    seq(MAX_PHILOSOPHERS, _ => Thinking), seq(MAX_PHILOSOPHERS, _ => false),
    seq(MAX_PHILOSOPHERS, _ => M.Lock(false, [])), seq(MAX_PHILOSOPHERS, _ => Absent),
    Free, Listen, {})

  predicate Shape(t: Table) {
    && t.count <= MAX_PHILOSOPHERS
    && |t.moods| == |t.dies| == |t.muts| == |t.pcs| == MAX_PHILOSOPHERS
  }

  predicate Critical(pc: Pc) {
    !(pc.Absent? || pc.Away? || pc.DieWait? || pc.Approach? || pc.SeatLock? || pc.SeatBlocked? || pc.Dine?)
  }

  predicate NeedsLock(pc: Pc) {
    pc.Away? || pc.DieWait? || pc.Approach? || pc.Dine?
  }

  /** test(j) up to its mutex_unlock, run by philosopher i. */
  function Test(t: Table, i: nat, j: nat, granting: Pc, skipping: Pc): Table
    requires Shape(t) && i < MAX_PHILOSOPHERS && j < MAX_PHILOSOPHERS
  {
    var t' := t.(bereft := t.bereft - {j});
    if MayEat(t.count, t.moods, j)
    then t'.(moods := t.moods[j := Eating], pcs := t.pcs[i := granting])
    else t'.(pcs := t.pcs[i := skipping])
  }

  /** The mutex_unlock of test(j): a philosopher blocked on the seat wakes past take_forks. */
  function Grant(t: Table, i: nat, j: nat, next: Pc): Table
    requires Shape(t) && i < MAX_PHILOSOPHERS && j < MAX_PHILOSOPHERS
  {
    var pcs := if M.Successor(t.muts[j], {}).Some? then t.pcs[j := Dine] else t.pcs;
    t.(muts := t.muts[j := M.Release(t.muts[j], {})], pcs := pcs[i := next])
  }

  predicate Enabled(t: Table, l: Label)
    requires Shape(t)
  {
    match l
    case Move(i) =>
      && i < MAX_PHILOSOPHERS
      && !t.pcs[i].Absent? && !t.pcs[i].SeatBlocked?
      && (NeedsLock(t.pcs[i]) ==> t.crit == Free)
    case Add => t.cmd == Listen && t.crit == Free
    case Remove => t.cmd == Listen && t.crit == Free
    case Pause => t.cmd == Listen && t.crit == Free
    case Act => t.cmd != Listen && (t.cmd.RemoveWait? ==> t.crit == Free)
  }

  function Goto(t: Table, i: nat, pc: Pc): Table
    requires Shape(t) && i < MAX_PHILOSOPHERS
  {
    t.(pcs := t.pcs[i := pc])
  }

  function MovePhilosopher(t: Table, i: nat): Table
    requires Shape(t) && i < MAX_PHILOSOPHERS
  {
    var left, right := Left(i, t.count), Right(i, t.count);
    match t.pcs[i]
    case Away => Goto(t, i, ReadDie).(crit := Philosopher(i))
    case ReadDie => if t.dies[i] then Goto(t, i, DieLoop).(moods := t.moods[i := Dying]) else Goto(t, i, StayUnlock)
    case StayUnlock => Goto(t, i, Approach).(crit := Free)
    case DieLoop =>
      if Eats(t.moods, left) && Eats(t.moods, right) then Goto(t, i, DieWait).(crit := Free) else Goto(t, i, Leave)
    case DieWait => Goto(t, i, DieLoop).(crit := Philosopher(i))
    case Leave =>
      Goto(t, i, LeaveUnlock).(
        dies := t.dies[i := false],
        count := if t.count > 0 then t.count - 1 else 0,
        muts := t.muts[i := M.Lock(false, [])])
    case LeaveUnlock => Goto(t, i, Absent).(crit := Free)
    case Approach => Goto(t, i, SetHungry).(crit := Philosopher(i))
    case SetHungry => Goto(t, i, TestSelf).(moods := t.moods[i := Hungry])
    case TestSelf => Test(t, i, i, GrantSelf, TakeUnlock)
    case GrantSelf => Grant(t, i, i, TakeUnlock)
    case TakeUnlock => Goto(t, i, SeatLock).(crit := Free)
    case SeatLock =>
      Goto(t, i, if t.muts[i].locked then SeatBlocked else Dine).(muts := t.muts[i := M.Acquire(t.muts[i], i)])
    case Dine => Goto(t, i, SetThinking).(crit := Philosopher(i))
    case SetThinking => Goto(t, i, TestLeft).(moods := t.moods[i := Thinking])
    case TestLeft => if left < MAX_PHILOSOPHERS then Test(t, i, left, GrantLeft, TestRight) else t
    case GrantLeft => if left < MAX_PHILOSOPHERS then Grant(t, i, left, TestRight) else t
    case TestRight => if right < MAX_PHILOSOPHERS then Test(t, i, right, GrantRight, PutUnlock) else t
    case GrantRight => if right < MAX_PHILOSOPHERS then Grant(t, i, right, PutUnlock) else t
    case PutUnlock => Goto(t, i, Away).(crit := Free)
    case _ => t
  }

  function MoveCommander(t: Table): Table
    requires Shape(t)
  {
    var last := if t.count > 0 then t.count - 1 else 0;
    match t.cmd
    case Listen => t
    case AddCheck =>
      if t.count < MAX_PHILOSOPHERS then
        t.(cmd := AddOpen, count := t.count + 1, dies := t.dies[t.count := false],
           bereft := t.bereft + Orphans(t.count, t.moods))
      else t.(cmd := AddUnlock)
    case AddOpen => t.(cmd := AddLock, muts := t.muts[last := M.Lock(false, [])])
    case AddLock => t.(cmd := AddSpawn, muts := t.muts[last := M.Acquire(t.muts[last], COMMANDER)])
    case AddSpawn => t.(cmd := AddUnlock, moods := t.moods[last := Thinking], pcs := t.pcs[last := Away])
    case AddUnlock => t.(cmd := Listen, crit := Free)
    case Mark =>
      if t.count > 0 then t.(cmd := RemoveLoop(t.count), dies := t.dies[last := true])
      else t.(cmd := RemoveUnlock(0))
    case RemoveLoop(seen) =>
      if seen == t.count then t.(cmd := RemoveWait(seen), crit := Free) else t.(cmd := RemoveUnlock(seen))
    case RemoveWait(seen) => t.(cmd := RemoveLoop(seen), crit := Commander)
    case RemoveUnlock(_) => t.(cmd := Listen, crit := Free)
    case Paused => t.(cmd := Listen, crit := Free)
  }

  function Step(t: Table, l: Label): (t': Table)
    requires Shape(t) && Enabled(t, l)
    ensures Shape(t')
  {
    match l
    case Move(i) => MovePhilosopher(t, i)
    case Add => t.(cmd := AddCheck, crit := Commander)
    case Remove => t.(cmd := Mark, crit := Commander)
    case Pause => t.(cmd := Paused, crit := Commander)
    case Act => MoveCommander(t)
  }

  // ---------------------------------------------------------------------------
  // What every step keeps

  /** The seat whose mutex the holder of critical_m is about to unlock, or MAX_PHILOSOPHERS. */
  function GrantTarget(t: Table): nat
    requires Shape(t)
  {
    if !(t.crit.Philosopher? && t.crit.i < MAX_PHILOSOPHERS) then MAX_PHILOSOPHERS else
    match t.pcs[t.crit.i]
    case GrantSelf => t.crit.i
    case GrantLeft => Left(t.crit.i, t.count)
    case GrantRight => Right(t.crit.i, t.count)
    case _ => MAX_PHILOSOPHERS
  }

  predicate MoodFits(pc: Pc, mood: Mood) {
    match pc
    case Absent | LeaveUnlock => mood.Thinking? || mood.Dying?
    case DieLoop | DieWait | Leave => mood.Dying?
    case TestSelf => mood.Hungry?
    case GrantSelf | Dine | SetThinking => mood.Eating?
    case TakeUnlock | SeatLock | SeatBlocked => mood.Hungry? || mood.Eating?
    case _ => mood.Thinking?
  }

  /** The seat mutex is unlocked exactly between the grant and the lock in take_forks. */
  predicate PermitFits(pc: Pc, mood: Mood, mut: M.Lock<nat>, i: nat, pending: bool) {
    && (pending ==> mood.Eating? && (pc.GrantSelf? || pc.SeatLock? || pc.SeatBlocked?))
    && match pc
       case Absent | LeaveUnlock => true
       case SeatBlocked => mut == M.Lock(true, [i]) && (mood.Eating? <==> pending)
       case GrantSelf | TakeUnlock | SeatLock => mut == M.Lock(mood.Hungry? || pending, [])
       case _ => mut == M.Lock(true, [])
  }

  /** Only the last seat can be marked, and only while the commander waits for it. */
  predicate MarkFits(pc: Pc, die: bool, i: nat, count: nat, cmd: Command) {
    && (die ==> (cmd.RemoveLoop? || cmd.RemoveWait?) && cmd.seen == count == i + 1)
    && (pc.DieLoop? || pc.DieWait? || pc.Leave? ==> die)
  }

  predicate Adding(cmd: Command) {
    cmd.AddOpen? || cmd.AddLock? || cmd.AddSpawn?
  }

  /** Seats below the count are taken, except the one being added; beyond it there is at most
      the philosopher that has just given up its seat. */
  predicate PresenceFits(pc: Pc, i: nat, count: nat, adding: bool) {
    if i < count then !pc.LeaveUnlock? && (pc.Absent? <==> adding && i + 1 == count)
    else pc.Absent? || (pc.LeaveUnlock? && i == count)
  }

  predicate SeatFits(t: Table, i: nat)
    requires Shape(t) && i < MAX_PHILOSOPHERS
  {
    && (Critical(t.pcs[i]) <==> t.crit == Philosopher(i))
    && MoodFits(t.pcs[i], t.moods[i])
    && PermitFits(t.pcs[i], t.moods[i], t.muts[i], i, GrantTarget(t) == i)
    && MarkFits(t.pcs[i], t.dies[i], i, t.count, t.cmd)
    && PresenceFits(t.pcs[i], i, t.count, Adding(t.cmd))
    && (t.pcs[i].Leave? ==> !(Eats(t.moods, Left(i, t.count)) && Eats(t.moods, Right(i, t.count))))
  }

  predicate CommanderFits(t: Table)
    requires Shape(t)
  {
    && (t.crit.Philosopher? ==> t.crit.i < MAX_PHILOSOPHERS)
    && (t.cmd.Listen? || t.cmd.RemoveWait? <==> t.crit != Commander)
    && (Adding(t.cmd) ==> t.count > 0)
    && (t.cmd.AddLock? ==> t.muts[t.count - 1] == M.Lock(false, []))
    && (t.cmd.AddSpawn? ==> t.muts[t.count - 1] == M.Lock(true, []))
    && (t.cmd.RemoveLoop? || t.cmd.RemoveWait? ==>
         || (t.cmd.seen == t.count > 0 && t.dies[t.count - 1])
         || t.cmd.seen == t.count + 1)
    && (t.cmd.RemoveUnlock? ==> t.cmd.seen == t.count + 1 || t.cmd.seen == t.count == 0)
  }

  /** Seats the holder of critical_m still has to pass to test(). */
  function Untested(t: Table): set<nat>
    requires Shape(t)
  {
    if !(t.crit.Philosopher? && t.crit.i < MAX_PHILOSOPHERS) then {} else
    var k := t.crit.i;
    match t.pcs[k]
    case TestSelf => {k}
    case TestLeft => {Left(k, t.count), Right(k, t.count)}
    case GrantLeft | TestRight => {Right(k, t.count)}
    case _ => {}
  }

  predicate Control(t: Table) {
    && Shape(t)
    && CommanderFits(t)
    && forall i :: 0 <= i < MAX_PHILOSOPHERS ==> SeatFits(t, i)
  }

  ghost predicate Manners(t: Table) {
    && Shape(t)
    && Apart(t.count, t.moods)
    && Served(t.count, t.moods, t.bereft + Untested(t))
  }

  // ---------------------------------------------------------------------------
  // Runs

  ghost predicate Legal(t: Table, ls: seq<Label>)
    requires Shape(t)
    decreases |ls|
  {
    ls == [] || (Enabled(t, ls[0]) && Legal(Step(t, ls[0]), ls[1..]))
  }

  ghost function After(t: Table, ls: seq<Label>): (t': Table)
    requires Shape(t) && Legal(t, ls)
    ensures Shape(t')
    decreases |ls|
  {
    if ls == [] then t else After(Step(t, ls[0]), ls[1..])
  }
}
