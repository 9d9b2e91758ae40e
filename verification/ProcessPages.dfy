/** The pages a process owns: the table of data pages in its descriptor, and what
    destroying the process gives back to the allocators. */
module ProcessPages {
  import opened Common
  import opened Pages

  const MAX_DATA_PAGES := 64
  const WORD := 0x1_0000_0000_0000_0000

  // ---------------------------------------------------------------------------
  // The table: 64 slots, zero meaning empty, and a 64-bit count

  datatype Table = Table(slots: seq<nat>, n: nat)

  function Zeros(k: nat): seq<nat> {
    seq(k, (_: nat) => 0)
  }

  /** The first slot holding `page`, or one past the end. */
  function FirstSlot(slots: seq<nat>, page: nat): (i: nat)
    ensures i <= |slots| && (i < |slots| ==> slots[i] == page) && page !in slots[..i]
  {
    if slots == [] || slots[0] == page then 0
    else
      assert forall i :: 0 <= i <= |slots| - 1 ==> slots[..i + 1] == [slots[0]] + slots[1..][..i];
      1 + FirstSlot(slots[1..], page)
  }

  function Add(t: Table, page: nat): Table {
    var i := FirstSlot(t.slots, 0);
    if i < |t.slots| then Table(t.slots[i := page], (t.n + 1) % WORD) else t
  }

  function Remove(t: Table, page: nat): Table {
    var i := FirstSlot(t.slots, page);
    if i < |t.slots| then Table(t.slots[i := 0], (t.n + WORD - 1) % WORD) else t
  }

  function Count(slots: seq<nat>): (c: nat)
    ensures c <= |slots|
  {
    if slots == [] then 0 else (if slots[0] != 0 then 1 else 0) + Count(slots[1..])
  }

  lemma {:induction false} CountUpdate(slots: seq<nat>, i: nat, page: nat)
    requires i < |slots|
    ensures Count(slots[i := page]) ==
            Count(slots) + (if page != 0 then 1 else 0) - (if slots[i] != 0 then 1 else 0)
  {
    if i > 0 {
      CountUpdate(slots[1..], i - 1, page);
      assert slots[i := page][1..] == slots[1..][i - 1 := page];
    } else {
      assert slots[i := page][1..] == slots[1..];
    }
  }

  lemma {:induction false} FullIffNoGap(slots: seq<nat>)
    ensures Count(slots) == |slots| <==> 0 !in slots
  {
    if slots != [] {
      FullIffNoGap(slots[1..]);
      assert slots == [slots[0]] + slots[1..];
    }
  }

  /** The count stays right through an addition exactly if the page is not NULL or the table
      is full, in which case nothing happens. */
  lemma AddKeepsCountIff(t: Table, page: nat)
    requires |t.slots| == MAX_DATA_PAGES && t.n == Count(t.slots)
    ensures Add(t, page).n == Count(Add(t, page).slots) <==> page != 0 || t.n == MAX_DATA_PAGES
    ensures t.n == MAX_DATA_PAGES <==> Add(t, page) == t
  {
    var i := FirstSlot(t.slots, 0);
    FullIffNoGap(t.slots);
    if i < |t.slots| {
      CountUpdate(t.slots, i, page);
      assert t.slots[i] == 0 && 0 in t.slots;
    } else {
      assert t.slots[..i] == t.slots;
    }
  }

  /** Removing NULL finds an empty slot and still takes one off the count. */
  lemma RemoveKeepsCountIff(t: Table, page: nat)
    requires |t.slots| == MAX_DATA_PAGES && t.n == Count(t.slots)
    ensures Remove(t, page).n == Count(Remove(t, page).slots) <==> page != 0 || t.n == MAX_DATA_PAGES
  {
    var i := FirstSlot(t.slots, page);
    FullIffNoGap(t.slots);
    if i < |t.slots| {
      CountUpdate(t.slots, i, 0);
      assert t.slots[i] == page && page in t.slots;
    } else {
      assert t.slots[..i] == t.slots;
    }
  }

  /** No page is recorded twice. */
  predicate Single(slots: seq<nat>) {
    forall i, j :: 0 <= i < j < |slots| && slots[i] != 0 ==> slots[i] != slots[j]
  }

  /** The pages given back by the loop that stops after `n` of them. */
  function FirstPages(slots: seq<nat>, n: nat): seq<nat> {
    if slots == [] || n == 0 then []
    else if slots[0] != 0 then [slots[0]] + FirstPages(slots[1..], n - 1)
    else FirstPages(slots[1..], n)
  }

  lemma {:induction false} FirstPagesAreHeld(slots: seq<nat>, n: nat)
    ensures |FirstPages(slots, n)| == if n < Count(slots) then n else Count(slots)
    ensures forall a :: a in FirstPages(slots, n) ==> a != 0 && a in slots
    ensures Single(slots) ==> Distinct(FirstPages(slots, n))
    ensures n >= Count(slots) ==> forall a :: a != 0 && a in slots ==> a in FirstPages(slots, n)
  {
    if slots != [] && n > 0 {
      var rest := slots[1..];
      assert slots == [slots[0]] + rest;
      var pages := FirstPages(rest, if slots[0] != 0 then n - 1 else n);
      FirstPagesAreHeld(rest, if slots[0] != 0 then n - 1 else n);
      if Single(slots) {
        assert Single(rest) by {
          assert forall i :: 0 <= i < |rest| ==> rest[i] == slots[i + 1];
        }
        if slots[0] != 0 {
          assert slots[0] !in rest;
          Prepended(slots[0], pages);
        }
      }
    } else if slots != [] && Count(slots) == 0 {
      NoneHeld(slots);
    }
  }

  lemma {:induction false} NoneHeld(slots: seq<nat>)
    requires Count(slots) == 0
    ensures forall a :: a in slots ==> a == 0
  {
    if slots != [] {
      assert slots == [slots[0]] + slots[1..];
      NoneHeld(slots[1..]);
    }
  }

  lemma {:induction false} HeldAreCounted(slots: seq<nat>, pages: set<nat>)
    requires Single(slots) && pages == set a | a in slots && a != 0
    ensures |pages| == Count(slots)
  {
    FirstPagesAreHeld(slots, |slots|);
    DistinctCount(FirstPages(slots, |slots|));
    assert pages == Elements(FirstPages(slots, |slots|));
  }

  /** Teardown gives back every recorded page, each once, exactly if the count has not fallen
      behind the slots in use. */
  lemma TeardownReturnsAllIff(t: Table)
    requires Single(t.slots)
    ensures Distinct(FirstPages(t.slots, t.n))
    ensures (forall a :: a in t.slots && a != 0 ==> a in FirstPages(t.slots, t.n)) <==> t.n >= Count(t.slots)
  {
    var pages := FirstPages(t.slots, t.n);
    FirstPagesAreHeld(t.slots, t.n);
    if forall a :: a in t.slots && a != 0 ==> a in pages {
      var held := set a | a in t.slots && a != 0;
      HeldAreCounted(t.slots, held);
      DistinctCount(pages);
      assert held == Elements(pages);
    }
  }

  predicate ReturnsAll(t: Table) {
    forall a :: a in t.slots && a != 0 ==> a in FirstPages(t.slots, t.n)
  }

  /** Removing a page leaves a table whose teardown returns everything exactly if it is not NULL,
      or the table is empty, when the count wraps round to the largest one, or full. */
  lemma RemoveThenTeardownIff(t: Table, page: nat)
    requires |t.slots| == MAX_DATA_PAGES && t.n == Count(t.slots) && Single(t.slots)
    ensures ReturnsAll(Remove(t, page)) <==> page != 0 || t.n == 0 || t.n == MAX_DATA_PAGES
  {
    var t', i := Remove(t, page), FirstSlot(t.slots, page);
    assert Single(t'.slots);
    TeardownReturnsAllIff(t');
    RemoveKeepsCountIff(t, page);
    if page == 0 {
      FullIffNoGap(t.slots);
      if i < |t.slots| {
        assert t.slots[i] == 0 && t'.slots == t.slots;
      } else {
        assert t.slots[..i] == t.slots;
      }
    }
  }

  /** One page recorded, and NULL removed: teardown gives nothing back. */
  lemma RemoveNullLosesAPage()
    ensures exists t: Table :: |t.slots| == MAX_DATA_PAGES && t.n == Count(t.slots) && Single(t.slots)
              && PageAt(1) in t.slots && FirstPages(Remove(t, 0).slots, Remove(t, 0).n) == []
  {
    var t := Add(EMPTY_TABLE, PageAt(1));
    NoneCounted(MAX_DATA_PAGES);
    AddKeepsCountIff(EMPTY_TABLE, PageAt(1));
    assert FirstSlot(EMPTY_TABLE.slots, 0) == 0;
    assert t.slots[0] == PageAt(1) && t.n == 1 && t.slots[1] == 0;
    assert Remove(t, 0).n == 0 by {
      assert t.slots[..|t.slots|] == t.slots && 0 in t.slots;
    }
  }

  function StoreAll(pool: Pool, pages: seq<nat>): (pool': Pool)
    requires pool.next <= |pool.slots|
    ensures pool'.next <= |pool'.slots| == |pool.slots|
    decreases |pages|
  {
    if pages == [] then pool else StoreAll(Give(pool, Rounded(pages[0])), pages[1..])
  }

  lemma {:induction false} StoreAllIsGiveAll(pool: Pool, pages: seq<nat>)
    requires pool.next <= |pool.slots| && Elements(pages) <= DataPages()
    ensures StoreAll(pool, pages) == GiveAll(pool, pages)
    decreases |pages|
  {
    if pages != [] {
      assert pages[0] in Elements(pages);
      PagesAreRounded(pages[0]);
      assert pages == [pages[0]] + pages[1..];
      Prepended(pages[0], pages[1..]);
      StoreAllIsGiveAll(Give(pool, pages[0]), pages[1..]);
    }
  }

  class PageTable {
    const slots: array<nat>
    var n: nat

    ghost predicate Valid()
      reads this
    {
      slots.Length == MAX_DATA_PAGES && n < WORD
    }

    ghost function State(): Table
      reads this, slots
    {
      Table(slots[..], n)
    }

    constructor ()
      ensures Valid() && fresh(slots)
      ensures State() == Table(Zeros(MAX_DATA_PAGES), 0)
    {
      slots := new nat[MAX_DATA_PAGES](_ => 0);
      n := 0;
      new;
      assert slots[..] == Zeros(MAX_DATA_PAGES);
    }

    method Find(page: nat) returns (i: nat)
      requires Valid()
      ensures i == FirstSlot(slots[..], page)
    {
      i := 0;
      while i < MAX_DATA_PAGES && slots[i] != page
        invariant i <= MAX_DATA_PAGES
        invariant FirstSlot(slots[..], page) == i + FirstSlot(slots[i..], page)
      {
        assert slots[i..][1..] == slots[i + 1..];
        i := i + 1;
      }
    }

    method AddDataPage(page: nat)
      requires Valid()
      modifies this, slots
      ensures Valid() && State() == Add(old(State()), page)
    {
      var i := Find(0);
      if i < MAX_DATA_PAGES {
        n := (n + 1) % WORD;
        slots[i] := page;
      }
    }

    method RemoveDataPage(page: nat)
      requires Valid()
      modifies this, slots
      ensures Valid() && State() == Remove(old(State()), page)
    {
      var i := Find(page);
      if i < MAX_DATA_PAGES {
        n := (n + WORD - 1) % WORD;
        slots[i] := 0;
      }
    }

    /** Slots are not cleared: the descriptor is about to go. */
    method FreeDataPages(allocator: PageAllocator, caller: nat)
      requires Valid() && allocator.Valid() && allocator.slots != slots
      requires allocator.lock == FREE_LOCK
      modifies this`n, allocator, allocator.slots
      ensures Valid() && allocator.Valid() && allocator.lock == FREE_LOCK
      ensures allocator.State() == StoreAll(old(allocator.State()), FirstPages(slots[..], old(n)))
      ensures n == old(n) - |FirstPages(slots[..], old(n))|
    {
      var i := 0;
      while i < MAX_DATA_PAGES && n > 0
        invariant 0 <= i <= MAX_DATA_PAGES && Valid() && allocator.Valid() && allocator.lock == FREE_LOCK
        invariant StoreAll(allocator.State(), FirstPages(slots[i..], n)) ==
                  StoreAll(old(allocator.State()), FirstPages(slots[..], old(n)))
        invariant n - |FirstPages(slots[i..], n)| == old(n) - |FirstPages(slots[..], old(n))|
      {
        assert slots[i..][0] == slots[i] && slots[i..][1..] == slots[i + 1..];
        if slots[i] != 0 {
          ghost var rest := FirstPages(slots[i + 1..], n - 1);
          assert ([slots[i]] + rest)[1..] == rest;
          var _ := allocator.StorePage(caller, slots[i]);
          n := n - 1;
        }
        i := i + 1;
      }
      assert FirstPages(slots[i..], n) == [];
    }

    /** destroy_process on the descriptor at `address` with stack `stack`. */
    method Destroy(allocator: PageAllocator, stacks: StackAllocator, caller: nat, address: nat, stack: nat)
      requires Valid() && allocator.Valid() && stacks.Valid()
      requires allocator.slots != slots && stacks.slots != slots && stacks.slots != allocator.slots
      requires allocator.lock == FREE_LOCK
      modifies this`n, allocator, allocator.slots, stacks, stacks.slots
      ensures allocator.Valid() && stacks.Valid() && allocator.lock == FREE_LOCK
      ensures allocator.State() ==
              Give(StoreAll(old(allocator.State()), FirstPages(slots[..], old(n))), Rounded(address))
      ensures stacks.State() == Give(old(stacks.State()), stack)
    {
      FreeDataPages(allocator, caller);
      var _ := stacks.StoreStackPage(stack);
      var _ := allocator.StorePage(caller, address);
    }
  }

  // ---------------------------------------------------------------------------
  // All processes together

  /** What an outstanding page is used for. `Unrecorded` pages were handed to a process whose
      table was full. */
  datatype Owner = Descriptor | DataOf(d: nat) | Kernel | Unrecorded

  datatype Proc = Proc(stack: nat, table: Table)

  /** `procs` is indexed by the descriptor's address. `owner` and `stackOwner` are history:
      who got each outstanding page. */
  datatype Memory = Memory(
    pages: Pool, stacks: Pool, procs: map<nat, Proc>, owner: map<nat, Owner>, stackOwner: map<nat, nat>)

  datatype Action = Create | Malloc(d: nat) | FreePage(d: nat, address: nat) | Destroy(d: nat)
                  | KernelGet | KernelStore(address: nat)

  const EMPTY_TABLE := Table(Zeros(MAX_DATA_PAGES), 0)

  const BOOT := Memory(FRESH_PAGES, FRESH_STACKS, map[], map[], map[])

  predicate Room(pool: Pool) {
    pool.next < |pool.slots|
  }

  predicate Enabled(m: Memory, a: Action) {
    && m.pages.next <= |m.pages.slots|
    && m.stacks.next <= |m.stacks.slots|
    && match a
       case Create => Room(m.pages) && Room(m.stacks)
       case Malloc(d) => d in m.procs && Room(m.pages)
       case FreePage(d, address) =>
         d in m.procs && address in m.owner && m.owner[address] in {DataOf(d), Unrecorded}
       case Destroy(d) => d in m.procs
       case KernelGet => Room(m.pages)
       case KernelStore(address) => address in m.owner && m.owner[address] == Kernel
  }

  function Step(m: Memory, a: Action): Memory
    requires Enabled(m, a)
  {
    match a
    case Create =>
      var d, stack := m.pages.slots[m.pages.next], m.stacks.slots[m.stacks.next];
      Memory(Take(m.pages), Take(m.stacks), m.procs[d := Proc(stack, EMPTY_TABLE)],
             m.owner[d := Descriptor], m.stackOwner[stack := d])
    case Malloc(d) =>
      var page, table := m.pages.slots[m.pages.next], m.procs[d].table;
      m.(pages := Take(m.pages),
         procs := m.procs[d := m.procs[d].(table := Add(table, page))],
         owner := m.owner[page := if 0 in table.slots then DataOf(d) else Unrecorded])
    case FreePage(d, address) =>
      m.(pages := Give(m.pages, Rounded(address)),
         procs := m.procs[d := m.procs[d].(table := Remove(m.procs[d].table, address))],
         owner := m.owner - {address})
    case Destroy(d) =>
      var p := m.procs[d];
      Memory(Give(StoreAll(m.pages, FirstPages(p.table.slots, p.table.n)), Rounded(d)),
             Give(m.stacks, p.stack), m.procs - {d},
             m.owner - OwnedBy(m.owner, d) - {d},
             m.stackOwner - {p.stack})
    case KernelGet =>
      m.(pages := Take(m.pages), owner := m.owner[m.pages.slots[m.pages.next] := Kernel])
    case KernelStore(address) =>
      m.(pages := Give(m.pages, Rounded(address)), owner := m.owner - {address})
  }

  predicate Legal(m: Memory, es: seq<Action>)
    decreases |es|
  {
    es == [] || (Enabled(m, es[0]) && Legal(Step(m, es[0]), es[1..]))
  }

  function After(m: Memory, es: seq<Action>): Memory
    requires Legal(m, es)
    decreases |es|
  {
    if es == [] then m else After(Step(m, es[0]), es[1..])
  }

  /** The data pages recorded for `d`. */
  function OwnedBy(owner: map<nat, Owner>, d: nat): set<nat> {
    set a | a in owner && owner[a] == DataOf(d)
  }

  predicate TableMatches(t: Table, d: nat, owner: map<nat, Owner>) {
    && |t.slots| == MAX_DATA_PAGES
    && t.n == Count(t.slots)
    && Single(t.slots)
    && (forall a :: a in t.slots && a != 0 ==> a in owner && owner[a] == DataOf(d))
    && (forall a :: a in owner && owner[a] == DataOf(d) ==> a in t.slots && a != 0)
  }

  predicate ProcsMatch(procs: map<nat, Proc>, owner: map<nat, Owner>) {
    && (forall d :: d in procs ==> d in owner && owner[d] == Descriptor && TableMatches(procs[d].table, d, owner))
    && (forall a :: a in owner && owner[a].Descriptor? ==> a in procs)
    && (forall a :: a in owner && owner[a].DataOf? ==> owner[a].d in procs)
  }

  predicate StacksMatch(procs: map<nat, Proc>, stackOwner: map<nat, nat>) {
    && (forall d :: d in procs ==> procs[d].stack in stackOwner && stackOwner[procs[d].stack] == d)
    && (forall s :: s in stackOwner ==> stackOwner[s] in procs && procs[stackOwner[s]].stack == s)
  }

  ghost predicate Inv(m: Memory) {
    && Split(m.pages, m.owner)
    && StacksSplit(m.stacks, m.stackOwner)
    && ProcsMatch(m.procs, m.owner)
    && StacksMatch(m.procs, m.stackOwner)
  }

  // Pools

  ghost predicate Split(pages: Pool, owner: map<nat, Owner>) {
    Partitioned(pages, owner.Keys, DataPages())
  }

  lemma PageIsNotNull(pages: Pool, owner: map<nat, Owner>, a: nat)
    requires Split(pages, owner) && a in owner
    ensures a != 0 && Rounded(a) == a && a in DataPages()
  {
    assert a in owner.Keys;
    PagesAreRounded(a);
  }

  lemma TopIsFresh(pages: Pool, owner: map<nat, Owner>)
    requires Split(pages, owner) && Room(pages)
    ensures pages.slots[pages.next] != 0 && pages.slots[pages.next] !in owner
  {
    TakeKeepsPartition(pages, owner.Keys, DataPages());
    PagesAreRounded(pages.slots[pages.next]);
  }

  lemma KeyAdded<V>(m: map<nat, V>, k: nat, v: V)
    ensures m[k := v].Keys == m.Keys + {k}
  {}

  lemma TakeSplits(pages: Pool, owner: map<nat, Owner>, o: Owner)
    requires Split(pages, owner) && Room(pages)
    ensures Split(Take(pages), owner[pages.slots[pages.next] := o])
  {
    var page := pages.slots[pages.next];
    TakeKeepsPartition(pages, owner.Keys, DataPages());
    KeyAdded(owner, page, o);
  }

  lemma GiveSplits(pages: Pool, owner: map<nat, Owner>, a: nat)
    requires Split(pages, owner) && a in owner
    ensures Split(Give(pages, Rounded(a)), owner - {a})
  {
    PageIsNotNull(pages, owner, a);
    GiveKeepsPartitionIff(pages, owner.Keys, DataPages(), a);
    assert (owner - {a}).Keys == owner.Keys - {a};
  }

  lemma GiveAllSplits(pages: Pool, owner: map<nat, Owner>, returned: seq<nat>)
    requires Split(pages, owner) && Distinct(returned) && Elements(returned) <= owner.Keys
    ensures Split(StoreAll(pages, returned), owner - Elements(returned))
  {
    StoreAllIsGiveAll(pages, returned);
    GiveAllKeepsPartition(pages, owner.Keys, DataPages(), returned);
    assert (owner - Elements(returned)).Keys == owner.Keys - Elements(returned);
  }

  // Tables

  lemma AddMatches(t: Table, d: nat, page: nat, owner: map<nat, Owner>)
    requires TableMatches(t, d, owner) && page != 0 && page !in owner && 0 in t.slots
    ensures TableMatches(Add(t, page), d, owner[page := DataOf(d)])
  {
    var i, t' := FirstSlot(t.slots, 0), Add(t, page);
    AddKeepsCountIff(t, page);
    assert t.slots[..|t.slots|] == t.slots;
    assert t'.slots == t.slots[i := page] && page !in t.slots;
    forall a | a != 0 && a in t.slots
      ensures a in t'.slots
    {
      var k :| 0 <= k < |t.slots| && t.slots[k] == a;
      assert t'.slots[k] == a;
    }
    assert t'.slots[i] == page;
  }

  lemma RemoveMatches(t: Table, d: nat, page: nat, owner: map<nat, Owner>)
    requires TableMatches(t, d, owner) && page != 0 && page in owner && owner[page] in {DataOf(d), Unrecorded}
    ensures TableMatches(Remove(t, page), d, owner - {page})
  {
    var i, t' := FirstSlot(t.slots, page), Remove(t, page);
    RemoveKeepsCountIff(t, page);
    if i < |t.slots| {
      assert t'.slots == t.slots[i := 0];
      forall a | a != page && a in t.slots
        ensures a in t'.slots
      {
        var k :| 0 <= k < |t.slots| && t.slots[k] == a;
        assert t'.slots[k] == a;
      }
    } else {
      assert t.slots[..i] == t.slots;
    }
  }

  /** A table does not notice changes to other owners' pages. */
  lemma TableKept(t: Table, d: nat, owner: map<nat, Owner>, owner': map<nat, Owner>)
    requires TableMatches(t, d, owner) && OwnedBy(owner, d) == OwnedBy(owner', d)
    ensures TableMatches(t, d, owner')
  {
    forall a
      ensures a in owner && owner[a] == DataOf(d) <==> a in owner' && owner'[a] == DataOf(d)
    {
      assert a in OwnedBy(owner, d) <==> a in OwnedBy(owner', d);
    }
  }

  lemma OthersMatch(procs: map<nat, Proc>, owner: map<nat, Owner>, owner': map<nat, Owner>, d: nat)
    requires ProcsMatch(procs, owner)
    requires forall a :: a in owner && owner[a].DataOf? && owner[a].d != d ==> a in owner' && owner'[a] == owner[a]
    requires forall a :: a in owner' && owner'[a].DataOf? && owner'[a].d != d ==> a in owner && owner'[a] == owner[a]
    ensures forall e :: e in procs && e != d ==> TableMatches(procs[e].table, e, owner')
  {
    forall e | e in procs && e != d
      ensures TableMatches(procs[e].table, e, owner')
    {
      TableKept(procs[e].table, e, owner, owner');
    }
  }

  lemma {:induction false} NoneCounted(n: nat)
    ensures Count(Zeros(n)) == 0
  {
    if n > 0 {
      NoneCounted(n - 1);
      assert Zeros(n)[1..] == Zeros(n - 1);
    }
  }

  lemma CreateMatches(procs: map<nat, Proc>, owner: map<nat, Owner>, d: nat, stack: nat)
    requires ProcsMatch(procs, owner) && d !in owner
    ensures ProcsMatch(procs[d := Proc(stack, EMPTY_TABLE)], owner[d := Descriptor])
  {
    NoneCounted(MAX_DATA_PAGES);
    OthersMatch(procs, owner, owner[d := Descriptor], d);
    assert TableMatches(EMPTY_TABLE, d, owner[d := Descriptor]);
  }

  lemma ReplaceMatches(procs: map<nat, Proc>, owner: map<nat, Owner>, owner': map<nat, Owner>, d: nat, t: Table)
    requires ProcsMatch(procs, owner) && d in procs && TableMatches(t, d, owner')
    requires forall a :: a in owner && owner[a] !in {DataOf(d), Unrecorded} ==> a in owner' && owner'[a] == owner[a]
    requires forall a :: a in owner' && owner'[a] !in {DataOf(d), Unrecorded} ==> a in owner && owner'[a] == owner[a]
    ensures ProcsMatch(procs[d := procs[d].(table := t)], owner')
  {
    var procs' := procs[d := procs[d].(table := t)];
    forall e | e in procs'
      ensures e in owner' && owner'[e] == Descriptor && TableMatches(procs'[e].table, e, owner')
    {
      OthersMatch(procs, owner, owner', d);
    }
    assert procs'.Keys == procs.Keys;
  }

  lemma MallocMatches(procs: map<nat, Proc>, owner: map<nat, Owner>, d: nat, page: nat)
    requires ProcsMatch(procs, owner) && d in procs && page != 0 && page !in owner
    ensures var t := procs[d].table;
            ProcsMatch(procs[d := procs[d].(table := Add(t, page))],
                       owner[page := if 0 in t.slots then DataOf(d) else Unrecorded])
  {
    var t := procs[d].table;
    var owner' := owner[page := if 0 in t.slots then DataOf(d) else Unrecorded];
    assert TableMatches(Add(t, page), d, owner') by {
      if 0 in t.slots {
        AddMatches(t, d, page, owner);
      } else {
        AddKeepsCountIff(t, page);
        FullIffNoGap(t.slots);
      }
    }
    ReplaceMatches(procs, owner, owner', d, Add(t, page));
  }

  lemma FreeMatches(procs: map<nat, Proc>, owner: map<nat, Owner>, d: nat, page: nat)
    requires ProcsMatch(procs, owner) && d in procs && page != 0
    requires page in owner && owner[page] in {DataOf(d), Unrecorded}
    ensures ProcsMatch(procs[d := procs[d].(table := Remove(procs[d].table, page))], owner - {page})
  {
    RemoveMatches(procs[d].table, d, page, owner);
    ReplaceMatches(procs, owner, owner - {page}, d, Remove(procs[d].table, page));
  }

  lemma DestroyMatches(procs: map<nat, Proc>, owner: map<nat, Owner>, d: nat)
    requires ProcsMatch(procs, owner) && d in procs
    ensures ProcsMatch(procs - {d}, owner - OwnedBy(owner, d) - {d})
  {
    OthersMatch(procs, owner, owner - OwnedBy(owner, d) - {d}, d);
  }

  lemma KernelMatches(procs: map<nat, Proc>, owner: map<nat, Owner>, owner': map<nat, Owner>, page: nat)
    requires ProcsMatch(procs, owner)
    requires page in owner ==> owner[page] == Kernel
    requires owner' == owner - {page} || owner' == owner[page := Kernel]
    ensures ProcsMatch(procs, owner')
  {
    forall d | d in procs
      ensures TableMatches(procs[d].table, d, owner')
    {
      TableKept(procs[d].table, d, owner, owner');
    }
  }

  // Stacks

  ghost predicate StacksSplit(stacks: Pool, stackOwner: map<nat, nat>) {
    Partitioned(stacks, stackOwner.Keys, StackPages())
  }

  lemma TopStackIsFresh(stacks: Pool, stackOwner: map<nat, nat>)
    requires StacksSplit(stacks, stackOwner) && Room(stacks)
    ensures stacks.slots[stacks.next] !in stackOwner
  {
    TakeKeepsPartition(stacks, stackOwner.Keys, StackPages());
  }

  lemma TakeStackSplits(stacks: Pool, stackOwner: map<nat, nat>, d: nat)
    requires StacksSplit(stacks, stackOwner) && Room(stacks)
    ensures StacksSplit(Take(stacks), stackOwner[stacks.slots[stacks.next] := d])
  {
    var stack := stacks.slots[stacks.next];
    TakeKeepsPartition(stacks, stackOwner.Keys, StackPages());
    KeyAdded(stackOwner, stack, d);
  }

  lemma GiveStackSplits(stacks: Pool, stackOwner: map<nat, nat>, stack: nat)
    requires StacksSplit(stacks, stackOwner) && stack in stackOwner
    ensures StacksSplit(Give(stacks, stack), stackOwner - {stack})
  {
    GiveKeepsPartitionIff(stacks, stackOwner.Keys, StackPages(), stack);
    assert (stackOwner - {stack}).Keys == stackOwner.Keys - {stack};
  }

  // Steps

  /** Teardown gives back exactly what was recorded for the process, each page once. */
  lemma TeardownReturnsOwned(procs: map<nat, Proc>, owner: map<nat, Owner>, d: nat)
    requires ProcsMatch(procs, owner) && d in procs
    ensures var t := procs[d].table;
            Distinct(FirstPages(t.slots, t.n)) && Elements(FirstPages(t.slots, t.n)) == OwnedBy(owner, d)
  {
    var t := procs[d].table;
    FirstPagesAreHeld(t.slots, t.n);
    assert TableMatches(t, d, owner);
  }

  lemma DestroySplits(pages: Pool, procs: map<nat, Proc>, owner: map<nat, Owner>, d: nat)
    requires Split(pages, owner) && ProcsMatch(procs, owner) && d in procs
    ensures var t := procs[d].table;
            Split(Give(StoreAll(pages, FirstPages(t.slots, t.n)), Rounded(d)), owner - OwnedBy(owner, d) - {d})
  {
    var returned := FirstPages(procs[d].table.slots, procs[d].table.n);
    TeardownReturnsOwned(procs, owner, d);
    assert OwnedBy(owner, d) <= owner.Keys && d !in OwnedBy(owner, d);
    GiveAllSplits(pages, owner, returned);
    GiveSplits(StoreAll(pages, returned), owner - OwnedBy(owner, d), d);
  }

  lemma StepKeepsSplit(m: Memory, a: Action)
    requires Split(m.pages, m.owner) && ProcsMatch(m.procs, m.owner) && Enabled(m, a)
    ensures Split(Step(m, a).pages, Step(m, a).owner)
  {
    match a
    case Create => TakeSplits(m.pages, m.owner, Descriptor);
    case Malloc(d) => TakeSplits(m.pages, m.owner, if 0 in m.procs[d].table.slots then DataOf(d) else Unrecorded);
    case FreePage(d, address) => GiveSplits(m.pages, m.owner, address);
    case Destroy(d) => DestroySplits(m.pages, m.procs, m.owner, d);
    case KernelGet => TakeSplits(m.pages, m.owner, Kernel);
    case KernelStore(address) => GiveSplits(m.pages, m.owner, address);
  }

  lemma StepKeepsProcs(m: Memory, a: Action)
    requires Split(m.pages, m.owner) && ProcsMatch(m.procs, m.owner) && Enabled(m, a)
    ensures ProcsMatch(Step(m, a).procs, Step(m, a).owner)
  {
    if Room(m.pages) {
      TopIsFresh(m.pages, m.owner);
    }
    match a
    case Create =>
      CreateMatches(m.procs, m.owner, m.pages.slots[m.pages.next], m.stacks.slots[m.stacks.next]);
    case Malloc(d) =>
      MallocMatches(m.procs, m.owner, d, m.pages.slots[m.pages.next]);
    case FreePage(d, address) =>
      PageIsNotNull(m.pages, m.owner, address);
      FreeMatches(m.procs, m.owner, d, address);
    case Destroy(d) =>
      DestroyMatches(m.procs, m.owner, d);
    case KernelGet =>
      KernelMatches(m.procs, m.owner, Step(m, a).owner, m.pages.slots[m.pages.next]);
    case KernelStore(address) =>
      KernelMatches(m.procs, m.owner, Step(m, a).owner, address);
  }

  lemma StepKeepsStackSplit(m: Memory, a: Action)
    requires StacksSplit(m.stacks, m.stackOwner) && StacksMatch(m.procs, m.stackOwner) && Enabled(m, a)
    ensures StacksSplit(Step(m, a).stacks, Step(m, a).stackOwner)
  {
    match a
    case Create => TakeStackSplits(m.stacks, m.stackOwner, m.pages.slots[m.pages.next]);
    case Destroy(d) => GiveStackSplits(m.stacks, m.stackOwner, m.procs[d].stack);
    case _ =>
  }

  lemma StepKeepsStacks(m: Memory, a: Action)
    requires StacksMatch(m.procs, m.stackOwner) && Enabled(m, a)
    requires a.Create? ==>
               && m.pages.slots[m.pages.next] !in m.procs
               && m.stacks.slots[m.stacks.next] !in m.stackOwner
    ensures StacksMatch(Step(m, a).procs, Step(m, a).stackOwner)
  {}

  lemma StepKeepsAll(m: Memory, a: Action)
    requires Inv(m) && Enabled(m, a)
    ensures Inv(Step(m, a))
  {
    StepKeepsSplit(m, a);
    StepKeepsProcs(m, a);
    if a.Create? {
      TopIsFresh(m.pages, m.owner);
      TopStackIsFresh(m.stacks, m.stackOwner);
    }
    StepKeepsStackSplit(m, a);
    StepKeepsStacks(m, a);
  }

  lemma BootKeepsInv()
    ensures Inv(BOOT)
  {
    FreshPagesPartitioned();
    FreshStacksPartitioned();
  }

  lemma {:induction false} RunKeepsInv(m: Memory, es: seq<Action>)
    requires Inv(m) && Legal(m, es)
    ensures Inv(After(m, es))
    decreases |es|
  {
    if es != [] {
      StepKeepsAll(m, es[0]);
      RunKeepsInv(Step(m, es[0]), es[1..]);
    }
  }

  lemma OnlyKernelLeft(procs: map<nat, Proc>, owner: map<nat, Owner>)
    requires ProcsMatch(procs, owner) && procs == map[]
    ensures owner.Keys == set a | a in owner && owner[a] in {Kernel, Unrecorded}
  {}

  /** Over every run of process creation, malloc, free, destruction and kernel allocations,
      each of the 255 pages is free or has one owner, each of the 128 stacks likewise. Once
      all processes are gone every stack is free again, and the pages still missing are those
      the kernel keeps and those no table had room for. */
  lemma {:induction false} EveryPageIsAccountedFor(es: seq<Action>)
    requires Legal(BOOT, es)
    ensures var m := After(BOOT, es);
            && Partitioned(m.pages, m.owner.Keys, DataPages())
            && Partitioned(m.stacks, m.stackOwner.Keys, StackPages())
            && (forall d :: d in m.procs ==>
                 forall a :: (a in m.procs[d].table.slots && a != 0 <==> a in m.owner && m.owner[a] == DataOf(d)))
            && (m.procs == map[] ==>
                 && m.stacks.next == 0
                 && m.pages.next == |set a | a in m.owner && m.owner[a] in {Kernel, Unrecorded}|)
  {
    var m := After(BOOT, es);
    BootKeepsInv();
    RunKeepsInv(BOOT, es);
    if m.procs == map[] {
      OutstandingCount(m.pages, m.owner.Keys, DataPages());
      OutstandingCount(m.stacks, m.stackOwner.Keys, StackPages());
      assert m.stackOwner.Keys == {};
      OnlyKernelLeft(m.procs, m.owner);
    }
  }
}
