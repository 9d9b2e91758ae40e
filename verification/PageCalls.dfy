/** What each call does to the free pages and to the processes' tables, in every reachable state. */
module PageCalls {
  import opened Common
  import opened Pages
  import opened ProcessPages

  /** Nobody but `d` is affected. */
  predicate OthersKeep(m: Memory, d: nat, m': Memory) {
    forall e :: e in m.procs && e != d ==> e in m'.procs && m'.procs[e] == m.procs[e]
  }

  /** What a call needs to know of the state it meets. */
  ghost predicate Knows(m: Memory, a: Action)
    requires Enabled(m, a)
  {
    match a
    case Create => m.pages.slots[m.pages.next] !in m.procs
    case Malloc(d) => m.pages.slots[m.pages.next] != 0
    case FreePage(d, page) => page != 0 && Rounded(page) == page && m.pages.next > 0 && Single(m.procs[d].table.slots)
    case KernelGet => true
    case KernelStore(page) => Rounded(page) == page && m.pages.next > 0
    case Destroy(d) => m.stacks.next > 0
  }

  lemma FreeAfterTake(pool: Pool)
    requires Room(pool)
    ensures Free(pool) == [pool.slots[pool.next]] + Free(Take(pool))
  {}

  lemma FreeAfterGive(pool: Pool, a: nat)
    requires 0 < pool.next <= |pool.slots|
    ensures Free(Give(pool, a)) == [a] + Free(pool)
  {}

  lemma CreateDoes(m: Memory)
    requires Enabled(m, Create) && Knows(m, Create)
    ensures var m', d := Step(m, Create), Free(m.pages)[0];
            && Free(m.pages) == [d] + Free(m'.pages)
            && d !in m.procs && m'.procs.Keys == m.procs.Keys + {d} && OthersKeep(m, d, m')
            && Free(m.stacks) == [m'.procs[d].stack] + Free(m'.stacks)
            && forall i :: 0 <= i < |m'.procs[d].table.slots| ==> m'.procs[d].table.slots[i] == 0
  {
    FreeAfterTake(m.pages);
    FreeAfterTake(m.stacks);
  }

  /** malloc hands out the first free page and records it if the table has room. */
  lemma MallocDoes(m: Memory, d: nat)
    requires Enabled(m, Malloc(d)) && Knows(m, Malloc(d))
    ensures var m', page := Step(m, Malloc(d)), Free(m.pages)[0];
            && Free(m.pages) == [page] + Free(m'.pages) && m'.stacks == m.stacks
            && m'.procs.Keys == m.procs.Keys && OthersKeep(m, d, m') && m'.procs[d].stack == m.procs[d].stack
            && Elements(m'.procs[d].table.slots) - {0} ==
               Elements(m.procs[d].table.slots) - {0} + if 0 in m.procs[d].table.slots then {page} else {}
  {
    FreeAfterTake(m.pages);
    AddRecords(m.procs[d].table, m.pages.slots[m.pages.next]);
  }

  lemma AddRecords(t: Table, page: nat)
    requires page != 0
    ensures Elements(Add(t, page).slots) - {0} == Elements(t.slots) - {0} + if 0 in t.slots then {page} else {}
  {
    var i, slots := FirstSlot(t.slots, 0), Add(t, page).slots;
    assert t.slots[..|t.slots|] == t.slots;
    if i < |t.slots| {
      assert slots[i] == page && t.slots[i] == 0;
      forall a | a != 0 && a in t.slots
        ensures a in slots
      {
        var k :| 0 <= k < |t.slots| && t.slots[k] == a;
        assert slots[k] == a;
      }
    }
  }

  /** free puts the page first among the free ones and takes it out of the table. */
  lemma FreeDoes(m: Memory, d: nat, page: nat)
    requires Enabled(m, FreePage(d, page)) && Knows(m, FreePage(d, page))
    ensures var m' := Step(m, FreePage(d, page));
            && m'.pages.next <= |m'.pages.slots|
            && Free(m'.pages) == [page] + Free(m.pages) && m'.stacks == m.stacks
            && m'.procs.Keys == m.procs.Keys && OthersKeep(m, d, m') && m'.procs[d].stack == m.procs[d].stack
            && Elements(m'.procs[d].table.slots) - {0} == Elements(m.procs[d].table.slots) - {0, page}
  {
    FreeAfterGive(m.pages, page);
    RemoveForgets(m.procs[d].table, page);
  }

  lemma OwnedIsOutstanding(pages: Pool, owner: map<nat, Owner>, page: nat)
    requires Split(pages, owner) && page in owner
    ensures pages.next > 0
  {
    GiveKeepsPartitionIff(pages, owner.Keys, DataPages(), page);
  }

  lemma RemoveForgets(t: Table, page: nat)
    requires page != 0 && Single(t.slots)
    ensures Elements(Remove(t, page).slots) - {0} == Elements(t.slots) - {0, page}
  {
    var i, slots := FirstSlot(t.slots, page), Remove(t, page).slots;
    assert t.slots[..|t.slots|] == t.slots;
    if i < |t.slots| {
      forall a | a != page && a in t.slots
        ensures a in slots
      {
        var k :| 0 <= k < |t.slots| && t.slots[k] == a;
        assert slots[k] == a;
      }
      forall k | 0 <= k < |slots|
        ensures slots[k] != page
      {
        assert k != i ==> slots[k] == t.slots[k];
      }
    }
  }

  /** destroy takes the process away and frees its stack. */
  lemma DestroyDoes(m: Memory, d: nat)
    requires Enabled(m, Destroy(d)) && Knows(m, Destroy(d))
    ensures var m' := Step(m, Destroy(d));
            && m'.stacks.next <= |m'.stacks.slots|
            && Free(m'.stacks) == [m.procs[d].stack] + Free(m.stacks) && m'.procs == m.procs - {d}
  {
    FreeAfterGive(m.stacks, m.procs[d].stack);
  }

  /** It frees the descriptor and the pages in the table, and nothing else. */
  lemma DestroyFrees(m: Memory, d: nat)
    requires Split(m.pages, m.owner) && ProcsMatch(m.procs, m.owner) && Enabled(m, Destroy(d))
    ensures var m' := Step(m, Destroy(d));
            && m'.pages.next <= |m'.pages.slots|
            && Elements(Free(m'.pages)) ==
               Elements(Free(m.pages)) + (Elements(m.procs[d].table.slots) - {0}) + {d}
  {
    var m', owned := Step(m, Destroy(d)), OwnedBy(m.owner, d);
    assert Split(m'.pages, m'.owner) by {
      StepKeepsSplit(m, Destroy(d));
    }
    FreeIsTheRest(m.pages, m.owner);
    FreeIsTheRest(m'.pages, m'.owner);
    TableIsOwned(m.procs, m.owner, d);
    OwnedComesBack(m.owner, owned, d);
  }

  lemma TableIsOwned(procs: map<nat, Proc>, owner: map<nat, Owner>, d: nat)
    requires ProcsMatch(procs, owner) && d in procs
    ensures Elements(procs[d].table.slots) - {0} == OwnedBy(owner, d) <= owner.Keys && d in owner
  {
    assert TableMatches(procs[d].table, d, owner);
  }

  lemma FreeIsTheRest(pages: Pool, owner: map<nat, Owner>)
    requires Split(pages, owner)
    ensures pages.next <= |pages.slots|
    ensures Elements(Free(pages)) == DataPages() - owner.Keys && owner.Keys <= DataPages()
  {}

  lemma OwnedComesBack(owner: map<nat, Owner>, owned: set<nat>, d: nat)
    requires owner.Keys <= DataPages() && owned <= owner.Keys && d in owner
    ensures DataPages() - (owner - owned - {d}).Keys == DataPages() - owner.Keys + owned + {d}
  {}

  lemma StackIsOutstanding(stacks: Pool, stackOwner: map<nat, nat>, stack: nat)
    requires StacksSplit(stacks, stackOwner) && stack in stackOwner
    ensures stacks.next > 0
  {
    GiveKeepsPartitionIff(stacks, stackOwner.Keys, StackPages(), stack);
  }

  /** The kernel's own allocations. */
  lemma KernelDoes(m: Memory, a: Action)
    requires (a.KernelGet? || a.KernelStore?) && Enabled(m, a) && Knows(m, a)
    ensures var m' := Step(m, a);
            && m'.procs == m.procs && m'.stacks == m.stacks && m'.pages.next <= |m'.pages.slots|
            && if a.KernelGet? then Free(m.pages) == [Free(m.pages)[0]] + Free(m'.pages)
               else Free(m'.pages) == [a.address] + Free(m.pages)
  {
    if a.KernelStore? {
      FreeAfterGive(m.pages, a.address);
    } else {
      FreeAfterTake(m.pages);
    }
  }

  /** Every reachable state is one the above speaks of. */
  lemma ReachedStatesKnow(es: seq<Action>, a: Action)
    requires Legal(BOOT, es) && Enabled(After(BOOT, es), a)
    ensures var m := After(BOOT, es);
            Knows(m, a) && Split(m.pages, m.owner) && ProcsMatch(m.procs, m.owner)
  {
    var m := After(BOOT, es);
    assert Inv(m) by {
      BootKeepsInv();
      RunKeepsInv(BOOT, es);
    }
    StateKnows(m, a);
  }

  lemma StateKnows(m: Memory, a: Action)
    requires Enabled(m, a) && Split(m.pages, m.owner) && ProcsMatch(m.procs, m.owner)
    requires StacksSplit(m.stacks, m.stackOwner) && StacksMatch(m.procs, m.stackOwner)
    ensures Knows(m, a)
  {
    match a
    case Create => TopIsFresh(m.pages, m.owner);
    case Malloc(_) => TopIsFresh(m.pages, m.owner);
    case KernelGet =>
    case FreePage(d, page) =>
      PageIsNotNull(m.pages, m.owner, page);
      OwnedIsOutstanding(m.pages, m.owner, page);
      assert TableMatches(m.procs[d].table, d, m.owner);
    case KernelStore(page) =>
      PageIsNotNull(m.pages, m.owner, page);
      OwnedIsOutstanding(m.pages, m.owner, page);
    case Destroy(d) => StackIsOutstanding(m.stacks, m.stackOwner, m.procs[d].stack);
  }
}
