/** Which pages teardown does not bring back: over every run, exactly those handed out while the
    process's table was full and not freed by hand since. */
module PageLeaks {
  import opened Common
  import opened Pages
  import opened ProcessPages

  predicate Unaccounted(owner: map<nat, Owner>, a: nat) {
    a in owner && owner[a] == Unrecorded
  }

  /** A malloc that hands out `a` to a process with a full table. */
  predicate Slips(m: Memory, e: Action, a: nat)
    requires Enabled(m, e)
  {
    e.Malloc? && 0 !in m.procs[e.d].table.slots && m.pages.slots[m.pages.next] == a
  }

  predicate NeverFreed(es: seq<Action>, a: nat) {
    forall i :: 0 <= i < |es| && es[i].FreePage? ==> es[i].address != a
  }

  /** Some malloc met a full table when it handed out `a`, and `a` was not freed afterwards. */
  ghost predicate SlippedAway(m: Memory, es: seq<Action>, a: nat)
    requires Legal(m, es)
    decreases |es|
  {
    es != [] && (
      || (Slips(m, es[0], a) && NeverFreed(es[1..], a))
      || SlippedAway(Step(m, es[0]), es[1..], a))
  }

  lemma UnaccountedStep(m: Memory, e: Action, a: nat)
    requires Enabled(m, e)
    requires Room(m.pages) ==> m.pages.slots[m.pages.next] !in m.owner
    requires e.Destroy? ==> e.d in m.owner && m.owner[e.d] == Descriptor
    ensures Unaccounted(Step(m, e).owner, a) <==>
              (Unaccounted(m.owner, a) && !(e.FreePage? && e.address == a)) || Slips(m, e, a)
  {}

  lemma TopAndDescriptor(m: Memory, e: Action)
    requires Split(m.pages, m.owner) && ProcsMatch(m.procs, m.owner) && Enabled(m, e)
    ensures Room(m.pages) ==> m.pages.slots[m.pages.next] !in m.owner
    ensures e.Destroy? ==> e.d in m.owner && m.owner[e.d] == Descriptor
  {
    if Room(m.pages) {
      TopIsFresh(m.pages, m.owner);
    }
  }

  lemma FreedFirstOrLater(es: seq<Action>, a: nat)
    requires es != []
    ensures NeverFreed(es, a) <==> NeverFreed(es[1..], a) && !(es[0].FreePage? && es[0].address == a)
  {
    assert es == [es[0]] + es[1..];
  }

  lemma {:induction false} UnaccountedSince(m: Memory, es: seq<Action>, a: nat)
    requires Inv(m) && Legal(m, es)
    ensures Unaccounted(After(m, es).owner, a) <==>
              (Unaccounted(m.owner, a) && NeverFreed(es, a)) || SlippedAway(m, es, a)
    decreases |es|
  {
    if es != [] {
      FreedFirstOrLater(es, a);
      TopAndDescriptor(m, es[0]);
      UnaccountedStep(m, es[0], a);
      UnaccountedSince(Step(m, es[0]), es[1..], a) by {
        StepKeepsAll(m, es[0]);
      }
    }
  }

  /** At every point of every run, a page is missing from the free ones exactly if the kernel
      keeps it, or it is the descriptor of a process, or it is in the table of one, or some malloc
      met a full table when it handed the page out and nobody freed it since. */
  lemma MissingExactly(es: seq<Action>, a: nat)
    requires Legal(BOOT, es) && a in DataPages()
    ensures var m := After(BOOT, es);
            && m.pages.next <= |m.pages.slots|
            && (a !in Free(m.pages) <==>
                 || (a in m.owner && m.owner[a] == Kernel)
                 || a in m.procs
                 || (exists d :: d in m.procs && a in m.procs[d].table.slots)
                 || SlippedAway(BOOT, es, a))
  {
    var m := After(BOOT, es);
    BootKeepsInv();
    UnaccountedSince(BOOT, es, a);
    assert Split(m.pages, m.owner) && ProcsMatch(m.procs, m.owner) by {
      RunKeepsInv(BOOT, es);
    }
    MissingByOwner(m.pages, m.procs, m.owner, a);
  }

  lemma MissingByOwner(pages: Pool, procs: map<nat, Proc>, owner: map<nat, Owner>, a: nat)
    requires Split(pages, owner) && ProcsMatch(procs, owner) && a in DataPages()
    ensures a !in Free(pages) <==>
              || (a in owner && owner[a] == Kernel)
              || a in procs
              || (exists d :: d in procs && a in procs[d].table.slots)
              || Unaccounted(owner, a)
  {
    MissingIsOwned(pages, owner, a);
    PagesAreRounded(a);
    OwnedIsSomewhere(procs, owner, a);
  }

  lemma OwnedIsSomewhere(procs: map<nat, Proc>, owner: map<nat, Owner>, a: nat)
    requires ProcsMatch(procs, owner) && a != 0
    ensures a in procs <==> a in owner && owner[a] == Descriptor
    ensures (exists d :: d in procs && a in procs[d].table.slots) <==> a in owner && owner[a].DataOf?
  {
    if a in owner && owner[a].DataOf? {
      assert TableMatches(procs[owner[a].d].table, owner[a].d, owner);
    }
    forall d | d in procs && a in procs[d].table.slots
      ensures a in owner && owner[a] == DataOf(d)
    {
      assert TableMatches(procs[d].table, d, owner);
    }
  }

  lemma MissingIsOwned(pages: Pool, owner: map<nat, Owner>, a: nat)
    requires Split(pages, owner) && a in DataPages()
    ensures a !in Free(pages) <==> a in owner
  {
    assert a in Elements(Free(pages)) + owner.Keys;
  }

  // ---------------------------------------------------------------------------
  // A run that loses a page

  lemma {:induction false} Append(m: Memory, es: seq<Action>, e: Action)
    requires Legal(m, es) && Enabled(After(m, es), e)
    ensures Legal(m, es + [e]) && After(m, es + [e]) == Step(After(m, es), e)
    decreases |es|
  {
    if es == [] {
      assert [e][1..] == [] && Legal(Step(m, e), []);
    } else {
      Append(Step(m, es[0]), es[1..], e);
      assert (es + [e])[1..] == es[1..] + [e];
    }
  }

  /** Besides the first process there is one, at `d`, with k pages in its table. */
  ghost predicate Hoards(m: Memory, first: nat, d: nat, k: nat) {
    && m.procs.Keys == {first, d} && first != d
    && |m.procs[d].table.slots| == MAX_DATA_PAGES && Count(m.procs[d].table.slots) == k
    && m.pages.next <= k + 2 && |m.pages.slots| == PAGE_COUNT
    && m.stacks.next <= |m.stacks.slots|
  }

  lemma AddedIsCounted(t: Table, page: nat)
    requires |t.slots| == MAX_DATA_PAGES && Count(t.slots) < MAX_DATA_PAGES && page != 0
    ensures |Add(t, page).slots| == MAX_DATA_PAGES && Count(Add(t, page).slots) == Count(t.slots) + 1
  {
    var i := FirstSlot(t.slots, 0);
    FullIffNoGap(t.slots);
    assert t.slots[..|t.slots|] == t.slots;
    CountUpdate(t.slots, i, page);
  }

  lemma TwoProcesses() returns (first: nat, d: nat)
    ensures Enabled(BOOT, Create) && Enabled(Step(BOOT, Create), Create)
    ensures Hoards(Step(Step(BOOT, Create), Create), first, d, 0)
  {
    first, d := BOOT.pages.slots[0], BOOT.pages.slots[1];
    NoneCounted(MAX_DATA_PAGES);
    assert first == PageAt(1) && d == PageAt(2);
  }

  lemma OneMore(m: Memory, first: nat, d: nat, k: nat)
    requires Hoards(m, first, d, k) && k < MAX_DATA_PAGES && m.pages.slots[m.pages.next] != 0
    ensures Enabled(m, Malloc(d)) && Hoards(Step(m, Malloc(d)), first, d, k + 1)
  {
    AddedIsCounted(m.procs[d].table, m.pages.slots[m.pages.next]);
  }

  lemma OneTooMany(m: Memory, first: nat, d: nat)
    requires Hoards(m, first, d, MAX_DATA_PAGES)
    ensures Enabled(m, Malloc(d))
    ensures var m' := Step(m, Malloc(d));
            m'.procs.Keys == {first, d} && Unaccounted(m'.owner, m.pages.slots[m.pages.next])
  {
    FullIffNoGap(m.procs[d].table.slots);
  }

  lemma SecondEnds(m: Memory, first: nat, d: nat, a: nat)
    requires m.procs.Keys == {first, d} && first != d && Unaccounted(m.owner, a) && Enabled(m, Destroy(d))
    requires d in m.owner && m.owner[d] == Descriptor
    ensures Step(m, Destroy(d)).procs.Keys == {first} && Unaccounted(Step(m, Destroy(d)).owner, a)
  {}

  ghost predicate Reaches(m0: Memory, m: Memory) {
    exists es :: Legal(m0, es) && After(m0, es) == m
  }

  lemma Extend(m: Memory, e: Action)
    requires Reaches(BOOT, m) && Enabled(m, e)
    ensures Reaches(BOOT, Step(m, e))
  {
    var es :| Legal(BOOT, es) && After(BOOT, es) == m;
    Append(BOOT, es, e);
  }

  lemma ReachableKeepsInv(m: Memory)
    requires Reaches(BOOT, m)
    ensures Inv(m)
  {
    var es :| Legal(BOOT, es) && After(BOOT, es) == m;
    BootKeepsInv();
    RunKeepsInv(BOOT, es);
  }

  lemma ReachableTop(m: Memory)
    requires Reaches(BOOT, m) && Room(m.pages)
    ensures m.pages.slots[m.pages.next] != 0
  {
    ReachableKeepsInv(m);
    TopIsFresh(m.pages, m.owner);
  }

  lemma ReachableDescriptor(m: Memory, d: nat)
    requires Reaches(BOOT, m) && d in m.procs
    ensures Enabled(m, Destroy(d)) && d in m.owner && m.owner[d] == Descriptor
  {
    ReachableKeepsInv(m);
  }

  lemma {:induction false} HoardIsReachable(k: nat) returns (m: Memory, first: nat, d: nat)
    requires k <= MAX_DATA_PAGES
    ensures Reaches(BOOT, m) && Hoards(m, first, d, k)
    decreases k
  {
    if k == 0 {
      var f, e := TwoProcesses();
      first, d := f, e;
      assert Legal(BOOT, []) && After(BOOT, []) == BOOT;
      Extend(BOOT, Create);
      Extend(Step(BOOT, Create), Create);
      m := Step(Step(BOOT, Create), Create);
    } else {
      var m0, f, e := HoardIsReachable(k - 1);
      first, d := f, e;
      ReachableTop(m0);
      OneMore(m0, first, d, k - 1);
      Extend(m0, Malloc(d));
      m := Step(m0, Malloc(d));
    }
  }

  /** A second process makes 65 allocations and ends while the first lives on: a page is gone that
      nobody owns. */
  lemma TeardownLosesAPage()
    ensures exists m: Memory, a: nat :: Reaches(BOOT, m) && |m.procs| == 1 && Unaccounted(m.owner, a)
  {
    var m, first, d := HoardIsReachable(MAX_DATA_PAGES);
    OneTooMany(m, first, d);
    var m' := Step(m, Malloc(d));
    var a := m.pages.slots[m.pages.next];
    Extend(m, Malloc(d));
    ReachableDescriptor(m', d);
    SecondEnds(m', first, d, a);
    Extend(m', Destroy(d));
    assert |Step(m', Destroy(d)).procs.Keys| == 1;
  }
}
