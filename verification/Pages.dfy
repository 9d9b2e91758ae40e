/** The two page allocators: arrays used as stacks of free addresses, with an index to the
    next one to hand out. Data pages are kept as 8-bit page numbers. */
module Pages {
  import opened Common
  import opened LinkedQueue
  import Mutex

  // ---------------------------------------------------------------------------
  // A stack of free addresses

  datatype Pool = Pool(slots: seq<nat>, next: nat)

  function Free(pool: Pool): seq<nat>
    requires pool.next <= |pool.slots|
  {
    pool.slots[pool.next..]
  }

  function Take(pool: Pool): Pool {
    pool.(next := pool.next + 1)
  }

  function Give(pool: Pool, address: nat): Pool
    requires pool.next <= |pool.slots|
  {
    if pool.next > 0 then Pool(pool.slots[pool.next - 1 := address], pool.next - 1) else pool
  }

  function Elements(s: seq<nat>): set<nat> {
    set a | a in s
  }

  /** Every address of `universe` is either free, once, or outstanding; never both. */
  ghost predicate Partitioned(pool: Pool, out: set<nat>, universe: set<nat>) {
    && |pool.slots| == |universe|
    && pool.next <= |pool.slots|
    && Distinct(Free(pool))
    && Halves(Elements(Free(pool)), out, universe)
  }

  predicate Halves(free: set<nat>, out: set<nat>, universe: set<nat>) {
    free !! out && free + out == universe
  }

  lemma MoveOut(page: nat, free: set<nat>, out: set<nat>, universe: set<nat>)
    requires Halves({page} + free, out, universe) && page !in free
    ensures Halves(free, out + {page}, universe) && page in universe && page !in out
  {
    assert {page} + free + out == free + (out + {page});
  }

  lemma MoveIn(page: nat, free: set<nat>, out: set<nat>, universe: set<nat>)
    requires Halves(free, out, universe)
    ensures page in out ==> page !in free && Halves({page} + free, out - {page}, universe)
    ensures page !in out && page !in free ==> !Halves({page} + free, out - {page}, universe)
  {
    if page in out {
      assert {page} + free + (out - {page}) == free + out;
    } else {
      assert page in {page} + free;
      assert page !in free ==> page !in universe;
    }
  }

  lemma Prepended(a: nat, s: seq<nat>)
    ensures Elements([a] + s) == {a} + Elements(s)
    ensures Distinct([a] + s) <==> Distinct(s) && a !in s
  {
    var t := [a] + s;
    forall i | 0 <= i < |s|
      ensures t[i + 1] == s[i] && s[i] in t
    {}
    assert t[0] == a;
    if Distinct(t) {
      forall i, j | 0 <= i < j < |s|
        ensures s[i] != s[j]
      {
        assert t[i + 1] != t[j + 1];
      }
    }
  }

  lemma {:induction false} DistinctCount(s: seq<nat>)
    requires Distinct(s)
    ensures |Elements(s)| == |s|
  {
    if s != [] {
      assert s == [s[0]] + s[1..];
      Prepended(s[0], s[1..]);
      DistinctCount(s[1..]);
      assert |{s[0]} + Elements(s[1..])| == 1 + |Elements(s[1..])|;
    }
  }

  lemma DisjointCount(a: set<nat>, b: set<nat>)
    requires a !! b
    ensures |a + b| == |a| + |b|
  {}

  /** The index is the number of outstanding pages. */
  lemma OutstandingCount(pool: Pool, out: set<nat>, universe: set<nat>)
    requires Partitioned(pool, out, universe)
    ensures |out| == pool.next
  {
    DistinctCount(Free(pool));
    DisjointCount(Elements(Free(pool)), out);
  }

  /** An allocation hands out a page that nobody holds. */
  lemma TakeKeepsPartition(pool: Pool, out: set<nat>, universe: set<nat>)
    requires Partitioned(pool, out, universe) && pool.next < |pool.slots|
    ensures pool.slots[pool.next] in universe && pool.slots[pool.next] !in out
    ensures Partitioned(Take(pool), out + {pool.slots[pool.next]}, universe)
  {
    var page, rest := pool.slots[pool.next], Free(Take(pool));
    assert Free(pool) == [page] + rest;
    Prepended(page, rest);
    MoveOut(page, Elements(rest), out, universe);
  }

  /** Giving an address back keeps the partition exactly when it was outstanding, or when
      nothing is and the call is refused. */
  lemma GiveKeepsPartitionIff(pool: Pool, out: set<nat>, universe: set<nat>, address: nat)
    requires Partitioned(pool, out, universe)
    ensures Partitioned(Give(pool, address), out - {address}, universe) <==> address in out || pool.next == 0
    ensures address in out ==> pool.next > 0
  {
    OutstandingCount(pool, out, universe);
    if pool.next > 0 {
      assert Free(Give(pool, address)) == [address] + Free(pool);
      Prepended(address, Free(pool));
      MoveIn(address, Elements(Free(pool)), out, universe);
    } else {
      assert out == {} && out - {address} == {};
    }
  }

  /** Freeing and allocating again returns the same page. */
  lemma GiveThenTake(pool: Pool, out: set<nat>, universe: set<nat>, address: nat)
    requires Partitioned(pool, out, universe) && address in out
    ensures var pool' := Give(pool, address);
            && pool'.next < |pool'.slots|
            && pool'.slots[pool'.next] == address
            && Free(Take(pool')) == Free(pool)
  {
    OutstandingCount(pool, out, universe);
  }

  function GiveAll(pool: Pool, pages: seq<nat>): (pool': Pool)
    requires pool.next <= |pool.slots|
    ensures pool'.next <= |pool'.slots| == |pool.slots|
    decreases |pages|
  {
    if pages == [] then pool else GiveAll(Give(pool, pages[0]), pages[1..])
  }

  lemma {:induction false} GiveAllKeepsPartition(pool: Pool, out: set<nat>, universe: set<nat>, pages: seq<nat>)
    requires Partitioned(pool, out, universe)
    requires Distinct(pages) && Elements(pages) <= out
    ensures Partitioned(GiveAll(pool, pages), out - Elements(pages), universe)
    decreases |pages|
  {
    if pages == [] {
      assert out - Elements(pages) == out;
    } else {
      var first, rest := pages[0], pages[1..];
      assert pages == [first] + rest;
      Prepended(first, rest);
      GiveKeepsPartitionIff(pool, out, universe, first);
      GiveAllKeepsPartition(Give(pool, first), out - {first}, universe, rest);
      MinusBoth(out, {first}, Elements(rest));
    }
  }

  lemma MinusBoth(out: set<nat>, a: set<nat>, b: set<nat>)
    ensures out - a - b == out - (a + b)
  {}

  // ---------------------------------------------------------------------------
  // Addresses

  const PAGE_COUNT := 255
  const PAGE_SIZE := 0x1000
  const DATA_ADDRESS := 0x50_0000
  const PAGES_END := (PAGE_COUNT + 1) * PAGE_SIZE + DATA_ADDRESS
  const STACK_ADDRESS := PAGES_END + PAGE_SIZE
  const STACK_COUNT := 128
  const STACK_SIZE := 0x10_0000

  function PageAt(index: nat): nat {
    index * PAGE_SIZE + DATA_ADDRESS
  }

  /** The page number of an address: a 64-bit subtraction, and a result kept in 8 bits. */
  function IndexOf(address: nat): nat {
    var offset := if address >= DATA_ADDRESS then address - DATA_ADDRESS
                  else address + 0x1_0000_0000_0000_0000 - DATA_ADDRESS;
    offset / PAGE_SIZE % 256
  }

  function StackAt(index: nat): nat {
    (index + 1) * STACK_SIZE + STACK_ADDRESS
  }

  /** Any address inside a page finds that page again. */
  lemma AddressRoundTrip(index: nat, offset: nat)
    requires index < 256 && offset < PAGE_SIZE
    ensures IndexOf(PageAt(index) + offset) == index
  {
    assert (index * 0x1000 + offset) / 0x1000 == index;
  }

  /** The NULL address counts as page 0, where the fractal parameters are. */
  lemma NullIsPageZero()
    ensures IndexOf(0) == 0
  {}

  function DataPages(): set<nat> {
    set i | 0 <= i < PAGE_COUNT :: PageAt(i)
  }

  function StackPages(): set<nat> {
    set i | 0 <= i < STACK_COUNT :: StackAt(i)
  }

  /** Page ranges and the downward growing stacks never meet: two data pages, two stacks, or
      a data page and a stack. */
  lemma RegionsAreDisjoint(i: nat, j: nat)
    requires i < PAGE_COUNT && j < PAGE_COUNT
    ensures i != j ==> PageAt(i) + PAGE_SIZE <= PageAt(j) || PageAt(j) + PAGE_SIZE <= PageAt(i)
    ensures i < j ==> StackAt(i) <= StackAt(j) - STACK_SIZE
    ensures PageAt(i) + PAGE_SIZE <= StackAt(j) - STACK_SIZE
  {
    assert i < j ==> i + 1 <= j;
    assert j < i ==> j + 1 <= i;
  }

  /** The initialiser's loop stops one short, so the last slot keeps the zero of static
      storage: page 0 is at the bottom of the stack. */
  function FreshPage(slot: nat): nat {
    PageAt(if slot < PAGE_COUNT - 1 then slot + 1 else 0)
  }

  const FRESH_PAGES := Pool(seq(PAGE_COUNT, (i: nat) requires i < PAGE_COUNT => FreshPage(i)), 0)
  const FRESH_STACKS := Pool(seq(STACK_COUNT, (i: nat) requires i < STACK_COUNT => StackAt(i)), 0)

  lemma FreshPagesPartitioned()
    ensures Partitioned(FRESH_PAGES, {}, DataPages())
  {
    var free := Free(FRESH_PAGES);
    assert forall i :: 0 <= i < PAGE_COUNT ==> free[i] == FreshPage(i);
    assert Distinct(free);
    forall a | a in DataPages()
      ensures a in free
    {
      var i :| 0 <= i < PAGE_COUNT && a == PageAt(i);
      assert free[if i == 0 then 254 else i - 1] == a;
    }
    DistinctCount(free);
    assert Elements(free) == DataPages();
  }

  lemma FreshStacksPartitioned()
    ensures Partitioned(FRESH_STACKS, {}, StackPages())
  {
    var free := Free(FRESH_STACKS);
    assert forall i :: 0 <= i < STACK_COUNT ==> free[i] == StackAt(i);
    forall a | a in StackPages()
      ensures a in free
    {
      var i :| 0 <= i < STACK_COUNT && a == StackAt(i);
      assert free[i] == a;
    }
    assert Distinct(free);
    DistinctCount(free);
    assert Elements(free) == StackPages();
  }

  // ---------------------------------------------------------------------------
  // The data page allocator

  /** The address a slot stands for once `address` has been stored in it. */
  function Rounded(address: nat): nat {
    PageAt(IndexOf(address))
  }

  lemma PagesAreRounded(address: nat)
    requires address in DataPages()
    ensures address != 0 && Rounded(address) == address
  {
    var i :| 0 <= i < PAGE_COUNT && address == PageAt(i);
    AddressRoundTrip(i, 0);
  }

  const FREE_LOCK: Mutex.Lock<nat> := Mutex.Lock(false, [])

  class PageAllocator {
    const slots: array<nat>
    var next: nat
    var lock: Mutex.Lock<nat>

    ghost predicate Valid()
      reads this, slots
    {
      && slots.Length == PAGE_COUNT
      && next <= PAGE_COUNT
      && (forall i :: 0 <= i < slots.Length ==> slots[i] < 256)
      && (!lock.locked ==> lock.queue == [])
    }

    ghost function State(): (pool: Pool)
      reads this, slots
      requires Valid()
      ensures |pool.slots| == PAGE_COUNT && pool.next == next
    {
      Pool(seq(PAGE_COUNT, (i: nat) requires i < PAGE_COUNT reads this, slots requires Valid() => PageAt(slots[i])), next)
    }

    constructor ()
      ensures Valid() && fresh(slots)
      ensures State() == FRESH_PAGES && lock == FREE_LOCK
    {
      slots := new nat[PAGE_COUNT](i => 0);
      next := 0;
      lock := FREE_LOCK;
      new;
      for i := 0 to PAGE_COUNT - 1
        modifies slots
        invariant forall k :: 0 <= k < PAGE_COUNT ==> slots[k] == if k < i then k + 1 else 0
      {
        slots[i] := i + 1;
      }
      assert State().slots == FRESH_PAGES.slots;
    }

    /** get_page by process `caller`. It does not return if somebody holds the memory mutex, and
        queues for it; nor when no page is left: the mutex is then locked a second time instead
        of unlocked, and the caller waits for the lock it holds. */
    method GetPage(caller: nat) returns (page: Option<nat>)
      requires Valid()
      modifies this
      ensures Valid()
      ensures old(lock).locked ==>
                page == None && State() == old(State()) && lock == Mutex.Acquire(old(lock), caller)
      ensures !old(lock).locked && old(next) < PAGE_COUNT ==>
                && page == Some(old(State()).slots[old(next)])
                && State() == Take(old(State()))
                && lock == FREE_LOCK
      ensures !old(lock).locked && old(next) == PAGE_COUNT ==>
                page == None && State() == old(State()) && lock == Mutex.Lock(true, [caller])
    {
      var blocked := lock.locked;
      lock := Mutex.Acquire(lock, caller);
      page := None;
      if blocked {
        return;
      }
      if next < PAGE_COUNT {
        page := Some(slots[next] * PAGE_SIZE + DATA_ADDRESS);
        next := next + 1;
        lock := Mutex.Release(lock, {});
        return;
      }
      lock := Mutex.Acquire(lock, caller);
    }

    /** store_page by process `caller`; None if it queues for the mutex. */
    method StorePage(caller: nat, address: nat) returns (stored: Option<bool>)
      requires Valid()
      modifies this, slots
      ensures Valid()
      ensures old(lock).locked ==>
                stored == None && State() == old(State()) && lock == Mutex.Acquire(old(lock), caller)
      ensures !old(lock).locked ==>
                && State() == Give(old(State()), Rounded(address)) && lock == FREE_LOCK
                && stored == Some(old(next) > 0)
    {
      var blocked := lock.locked;
      lock := Mutex.Acquire(lock, caller);
      if blocked {
        return None;
      }
      stored := Some(next > 0);
      if next > 0 {
        next := next - 1;
        slots[next] := IndexOf(address);
        assert State().slots == old(State()).slots[next := Rounded(address)];
      }
      lock := Mutex.Release(lock, {});
    }
  }

  class StackAllocator {
    const slots: array<nat>
    var next: nat

    ghost predicate Valid()
      reads this
    {
      slots.Length == STACK_COUNT && next <= STACK_COUNT
    }

    ghost function State(): Pool
      reads this, slots
    {
      Pool(slots[..], next)
    }

    constructor ()
      ensures Valid() && fresh(slots) && State() == FRESH_STACKS
    {
      slots := new nat[STACK_COUNT];
      next := 0;
      new;
      for i := 0 to STACK_COUNT
        modifies slots
        invariant forall k :: 0 <= k < i ==> slots[k] == StackAt(k)
      {
        slots[i] := (i + 1) * STACK_SIZE + STACK_ADDRESS;
      }
      assert slots[..] == FRESH_STACKS.slots;
    }

    method GetStackPage() returns (page: nat)
      requires Valid()
      modifies this
      ensures Valid()
      ensures old(next) < STACK_COUNT ==> page == old(State()).slots[old(next)] && State() == Take(old(State()))
      ensures old(next) == STACK_COUNT ==> page == 0 && State() == old(State())
    {
      if next < STACK_COUNT {
        page := slots[next];
        next := next + 1;
      } else {
        page := 0;
      }
    }

    method StoreStackPage(address: nat) returns (stored: bool)
      requires Valid()
      modifies this, slots
      ensures Valid() && State() == Give(old(State()), address)
      ensures stored <==> old(next) > 0
    {
      stored := next > 0;
      if stored {
        next := next - 1;
        slots[next] := address;
      }
    }
  }

  // ---------------------------------------------------------------------------
  // Runs of one allocator

  datatype Call = Get | Store(address: nat)

  datatype Use = Use(pool: Pool, out: set<nat>)

  /** Only outstanding pages are freed, and nothing is allocated from an exhausted stack. */
  predicate Proper(u: Use, c: Call) {
    && u.pool.next <= |u.pool.slots|
    && match c
       case Get => u.pool.next < |u.pool.slots|
       case Store(a) => a in u.out
  }

  function Apply(u: Use, c: Call): Use
    requires Proper(u, c)
  {
    match c
    case Get => Use(Take(u.pool), u.out + {u.pool.slots[u.pool.next]})
    case Store(a) => Use(Give(u.pool, a), u.out - {a})
  }

  predicate AllProper(u: Use, cs: seq<Call>)
    decreases |cs|
  {
    cs == [] || (Proper(u, cs[0]) && AllProper(Apply(u, cs[0]), cs[1..]))
  }

  function ApplyAll(u: Use, cs: seq<Call>): Use
    requires AllProper(u, cs)
    decreases |cs|
  {
    if cs == [] then u else ApplyAll(Apply(u, cs[0]), cs[1..])
  }

  lemma ApplyKeepsPartition(u: Use, c: Call, universe: set<nat>)
    requires Partitioned(u.pool, u.out, universe) && Proper(u, c)
    ensures Partitioned(Apply(u, c).pool, Apply(u, c).out, universe)
  {
    match c
    case Get => TakeKeepsPartition(u.pool, u.out, universe);
    case Store(a) => GiveKeepsPartitionIff(u.pool, u.out, universe, a);
  }

  lemma {:induction false} RunKeepsPartition(u: Use, cs: seq<Call>, universe: set<nat>)
    requires Partitioned(u.pool, u.out, universe) && AllProper(u, cs)
    ensures Partitioned(ApplyAll(u, cs).pool, ApplyAll(u, cs).out, universe)
    decreases |cs|
  {
    if cs != [] {
      ApplyKeepsPartition(u, cs[0], universe);
      RunKeepsPartition(Apply(u, cs[0]), cs[1..], universe);
    }
  }

  /** Page conservation for both allocators. */
  lemma {:induction false} PagesAreConserved(cs: seq<Call>)
    ensures AllProper(Use(FRESH_PAGES, {}), cs) ==>
              var u := ApplyAll(Use(FRESH_PAGES, {}), cs);
              Partitioned(u.pool, u.out, DataPages()) && |u.out| == u.pool.next
    ensures AllProper(Use(FRESH_STACKS, {}), cs) ==>
              var u := ApplyAll(Use(FRESH_STACKS, {}), cs);
              Partitioned(u.pool, u.out, StackPages()) && |u.out| == u.pool.next
  {
    var pages, stacks := Use(FRESH_PAGES, {}), Use(FRESH_STACKS, {});
    if AllProper(pages, cs) {
      FreshPagesPartitioned();
      RunKeepsPartition(pages, cs, DataPages());
      OutstandingCount(ApplyAll(pages, cs).pool, ApplyAll(pages, cs).out, DataPages());
    }
    if AllProper(stacks, cs) {
      FreshStacksPartitioned();
      RunKeepsPartition(stacks, cs, StackPages());
      OutstandingCount(ApplyAll(stacks, cs).pool, ApplyAll(stacks, cs).out, StackPages());
    }
  }

  /** The most pages outstanding at any moment of a run. */
  function Peak(u: Use, cs: seq<Call>): nat
    requires AllProper(u, cs)
    decreases |cs|
  {
    if cs == [] then u.pool.next
    else
      var rest := Peak(Apply(u, cs[0]), cs[1..]);
      if rest > u.pool.next then rest else u.pool.next
  }

  /** Some allocation of the run handed out `page`. */
  predicate HandsOut(u: Use, cs: seq<Call>, page: nat)
    requires AllProper(u, cs)
    decreases |cs|
  {
    cs != [] && (
      || (cs[0].Get? && u.pool.slots[u.pool.next] == page)
      || HandsOut(Apply(u, cs[0]), cs[1..], page))
  }

  /** Page 0 holds the parameters of the fractal module and is meant never to be allocated.
      It is handed out exactly in the runs that use every page at once. */
  lemma {:induction false} ParametersHandedOutIffAllUsed(cs: seq<Call>)
    requires AllProper(Use(FRESH_PAGES, {}), cs)
    ensures HandsOut(Use(FRESH_PAGES, {}), cs, DATA_ADDRESS) <==> Peak(Use(FRESH_PAGES, {}), cs) == PAGE_COUNT
  {
    FreshPagesPartitioned();
    BottomPage(Use(FRESH_PAGES, {}), cs);
  }

  lemma {:induction false} BottomPage(u: Use, cs: seq<Call>)
    requires Partitioned(u.pool, u.out, DataPages()) && AllProper(u, cs)
    requires u.pool.next < PAGE_COUNT == |u.pool.slots| && u.pool.slots[254] == DATA_ADDRESS
    ensures HandsOut(u, cs, DATA_ADDRESS) <==> Peak(u, cs) == PAGE_COUNT
    decreases |cs|
  {
    if cs != [] {
      var u' := Apply(u, cs[0]);
      ApplyKeepsPartition(u, cs[0], DataPages());
      if u'.pool.next == PAGE_COUNT {
        PeakBounds(u', cs[1..]);
      } else {
        if cs[0].Get? {
          assert Free(u.pool)[254 - u.pool.next] == DATA_ADDRESS != Free(u.pool)[0];
        }
        BottomPage(u', cs[1..]);
      }
    }
  }

  lemma {:induction false} PeakBounds(u: Use, cs: seq<Call>)
    requires u.pool.next <= |u.pool.slots| && AllProper(u, cs)
    ensures u.pool.next <= Peak(u, cs) <= |u.pool.slots|
    decreases |cs|
  {
    if cs != [] {
      PeakBounds(Apply(u, cs[0]), cs[1..]);
    }
  }

  // ---------------------------------------------------------------------------
  // What exhaustion does to the memory mutex

  ghost predicate Wedged(h: Mutex.History, p: nat) {
    && h.lock.locked
    && Mutex.Waiting(h, p)
    && (forall q :: Mutex.Holds(h, q) ==> q == p)
  }

  /** The holder of the memory mutex that finds no page left locks it again, whether it came by
      the mutex free or handed over, and whoever is queued. In no continuation in which nobody
      unlocks what another one holds is the mutex ever acquired again. */
  lemma {:induction false} ExhaustionWedgesAllocator(h: Mutex.History, p: nat, es: seq<Mutex.Event>)
    requires Mutex.Exclusive(h) && Mutex.Holds(h, p)
    requires Mutex.Disciplined(Mutex.Step(h, Mutex.LockBy(p)), es)
    ensures var h' := Mutex.Step(h, Mutex.LockBy(p));
            && Mutex.After(h', es).acquired == h.acquired
            && Mutex.After(h', es).lock.locked
  {
    var h', t := Mutex.Step(h, Mutex.LockBy(p)), |h.calls|;
    assert h'.calls == h.calls + [p] && h'.lock.queue == h.lock.queue + [t];
    assert h'.calls[t] == p && h'.lock.queue[|h.lock.queue|] == t;
    forall q | Mutex.Holds(h', q)
      ensures q == p
    {
      var u :| u in h.holding && u < |h.calls| && h.calls[u] == p;
      assert h'.calls[u] == p && h'.holding == {u};
    }
    WedgedForever(h', p, es);
  }

  lemma {:induction false} WedgedForever(h: Mutex.History, p: nat, es: seq<Mutex.Event>)
    requires Wedged(h, p) && Mutex.Disciplined(h, es)
    requires forall t :: t in h.holding ==> t < |h.calls|
    ensures Mutex.After(h, es).acquired == h.acquired && Mutex.After(h, es).lock.locked
    decreases |es|
  {
    if es != [] {
      var h' := Mutex.Step(h, es[0]);
      if es[0].LockBy? {
        var t :| t in h.lock.queue && t < |h.calls| && h.calls[t] == p;
        assert t in h'.lock.queue && h'.calls[t] == p;
        forall q | Mutex.Holds(h', q)
          ensures q == p
        {
          var u :| u in h'.holding && u < |h'.calls| && h'.calls[u] == q;
          assert Mutex.Holds(h, h.calls[u]);
        }
      } else {
        assert es[0].KillOf?;
        assert Mutex.Waiting(h', p);
        assert forall q :: Mutex.Holds(h', q) ==> Mutex.Holds(h, q);
      }
      WedgedForever(h', p, es[1..]);
    }
  }
}
