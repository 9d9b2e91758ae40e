/** The first-fit allocation of create: when it finds the lowest gap, and when a deleted record
    or a missing end marker misleads it. */
module BmfsAllocation {
  import opened Bmfs

  // ---------------------------------------------------------------------------
  // The sorted copy

  /** A record whose block range lies inside blocks 1 .. n - 2. */
  predicate InRange(e: Entry, n: nat) {
    1 <= e.start && 1 <= e.reserved && EndOf(e) <= n - 1
  }

  predicate AllInRange(s: seq<Entry>, n: nat) {
    forall i :: 0 <= i < |s| ==> !IsEnd(s[i]) && InRange(s[i], n)
  }

  predicate Apart(a: Entry, b: Entry) {
    IsUnused(a) || IsUnused(b) || EndOf(a) <= b.start || EndOf(b) <= a.start
  }

  predicate AllApart(s: seq<Entry>) {
    forall i, j :: 0 <= i < j < |s| ==> Apart(s[i], s[j])
  }

  /** Files by position on the disk, unused records after them. */
  predicate Before(a: Entry, b: Entry) {
    IsUnused(b) || (!IsUnused(a) && EndOf(a) <= b.start)
  }

  predicate Sorted(s: seq<Entry>) {
    forall i, j :: 0 <= i < j < |s| ==> Before(s[i], s[j])
  }

  /** Number of blocks of the largest disk: its size in MiB is an unsigned int. */
  const MAX_BLOCKS: nat := 0x8000_0000

  lemma CmpIsPosition(a: Entry, b: Entry, n: nat)
    requires n <= MAX_BLOCKS && InRange(a, n) && InRange(b, n) && Apart(a, b)
    ensures if StartingBlockCmp(a, b) <= 0 then Before(a, b) else Before(b, a)
  {}

  lemma {:induction false} InsertIsPermutation(x: Entry, s: seq<Entry>)
    ensures multiset(Insert(x, s)) == multiset([x] + s)
  {
    if s != [] && StartingBlockCmp(x, s[0]) > 0 {
      InsertIsPermutation(x, s[1..]);
      assert s == [s[0]] + s[1..];
    }
  }

  lemma {:induction false} InsertKeepsSorted(x: Entry, s: seq<Entry>, n: nat)
    requires n <= MAX_BLOCKS && AllInRange(s, n) && InRange(x, n) && Sorted(s)
    requires forall i :: 0 <= i < |s| ==> Apart(x, s[i])
    ensures Sorted(Insert(x, s))
  {
    if s != [] {
      CmpIsPosition(x, s[0], n);
      if StartingBlockCmp(x, s[0]) <= 0 {
        forall j | 1 <= j < |s|
          ensures Before(x, s[j])
        {
          assert Before(s[0], s[j]) && InRange(s[0], n);
        }
      } else {
        InsertKeepsSorted(x, s[1..], n);
        var tail := Insert(x, s[1..]);
        InsertIsPermutation(x, s[1..]);
        forall j | 0 <= j < |tail|
          ensures Before(s[0], tail[j])
        {
          assert tail[j] in multiset([x] + s[1..]);
          if tail[j] != x {
            var k :| 0 <= k < |s[1..]| && s[1..][k] == tail[j];
            assert Before(s[0], s[k + 1]);
          }
        }
      }
    }
  }

  lemma {:induction false} SortIsSorted(s: seq<Entry>, n: nat)
    requires n <= MAX_BLOCKS && AllInRange(s, n) && AllApart(s)
    ensures Sorted(Sort(s)) && multiset(Sort(s)) == multiset(s) && AllInRange(Sort(s), n)
  {
    if s != [] {
      var x, rest := s[0], s[1..];
      SortIsSorted(rest, n);
      var t := Sort(rest);
      assert s == [x] + rest;
      forall j | 0 <= j < |t|
        ensures Apart(x, t[j])
      {
        assert t[j] in multiset(rest);
        var k :| 0 <= k < |rest| && rest[k] == t[j];
        assert Apart(s[0], s[k + 1]);
      }
      InsertIsPermutation(x, t);
      InsertKeepsSorted(x, t, n);
      SameMembers(Sort(s), s, n);
    }
  }

  lemma SameMembers(s: seq<Entry>, t: seq<Entry>, n: nat)
    requires multiset(s) == multiset(t)
    ensures forall e :: e in s <==> e in t
    ensures AllInRange(t, n) ==> AllInRange(s, n)
  {
    assert forall e :: e in s <==> e in multiset(s);
    assert forall e :: e in t <==> e in multiset(t);
    if AllInRange(t, n) {
      forall i | 0 <= i < |s|
        ensures !IsEnd(s[i]) && InRange(s[i], n)
      {
        assert s[i] in t;
      }
    }
  }

  // ---------------------------------------------------------------------------
  // The gap search

  /** Blocks q .. q + request - 1 are data blocks and belong to no file of s. */
  ghost predicate Fits(s: seq<Entry>, n: nat, q: nat, request: nat) {
    && 1 <= q && q + request <= n - 1
    && forall e :: e in s && !IsUnused(e) ==> q + request <= e.start || EndOf(e) <= q
  }

  /** An unused record after whose old range there is room up to the last block. */
  predicate Misleads(e: Entry, n: nat, request: nat) {
    IsUnused(e) && EndOf(e) + request <= n - 1
  }

  /** What the search returns: the lowest fit if there is one; otherwise the end of some
      misleading unused record if there is one; otherwise nothing. */
  ghost predicate Answers(s: seq<Entry>, n: nat, request: nat, p: nat) {
    if exists q :: Fits(s, n, q, request)
    then Fits(s, n, p, request) && forall q :: Fits(s, n, q, request) ==> p <= q
    else if exists e :: e in s && Misleads(e, n, request)
    then exists e :: e in s && Misleads(e, n, request) && p == EndOf(e)
    else p == 0
  }

  /** Past the files, no fit exists and the search only looks at old ends. */
  lemma {:induction false} ScanUnused(s: seq<Entry>, i: nat, n: nat, request: nat)
    requires 0 < i <= |s| && 0 < n <= MAX_BLOCKS && request > 0 && AllInRange(s, n) && Sorted(s) && IsUnused(s[i - 1])
    ensures var p := Scan(s, i, EndOf(s[i - 1]), n - 1, request);
            if exists k :: i - 1 <= k < |s| && Misleads(s[k], n, request)
            then exists k :: i - 1 <= k < |s| && Misleads(s[k], n, request) && p == EndOf(s[k])
            else p == 0
    decreases |s| - i
  {
    assert i < |s| ==> Before(s[i - 1], s[i]);
    assert InRange(s[i - 1], n);
    if i < |s| && !Misleads(s[i - 1], n, request) {
      ScanUnused(s, i + 1, n, request);
    }
  }

  /** Over the files: every fit lies at or after the end of the last file passed. */
  lemma {:induction false} ScanFiles(s: seq<Entry>, i: nat, prevEnd: nat, n: nat, request: nat)
    requires i <= |s| && 1 < n <= MAX_BLOCKS && request > 0 && AllInRange(s, n) && Sorted(s)
    requires i > 0 ==> !IsUnused(s[i - 1])
    requires prevEnd == if i == 0 then 1 else EndOf(s[i - 1])
    requires forall q :: Fits(s, n, q, request) ==> prevEnd <= q
    ensures Answers(s, n, request, Scan(s, i, prevEnd, n - 1, request))
    decreases |s| - i
  {
    var thisStart := if i == |s| || IsUnused(s[i]) then n - 1 else s[i].start;
    assert i > 0 ==> InRange(s[i - 1], n);
    assert i < |s| ==> InRange(s[i], n);
    assert prevEnd <= thisStart by {
      assert 0 < i < |s| ==> Before(s[i - 1], s[i]);
    }
    if thisStart - prevEnd >= request {
      GapFits(s, i, prevEnd, n, request);
    } else {
      forall q | Fits(s, n, q, request)
        ensures i < |s| && !IsUnused(s[i]) && EndOf(s[i]) <= q
      {
        assert i < |s| ==> s[i] in s;
      }
      if i < |s| && !IsUnused(s[i]) {
        ScanFiles(s, i + 1, EndOf(s[i]), n, request);
      } else {
        NoFitLeft(s, i, prevEnd, n, request);
      }
    }
  }

  lemma GapFits(s: seq<Entry>, i: nat, prevEnd: nat, n: nat, request: nat)
    requires i <= |s| && 1 < n && AllInRange(s, n) && Sorted(s)
    requires i > 0 ==> !IsUnused(s[i - 1])
    requires prevEnd == if i == 0 then 1 else EndOf(s[i - 1])
    requires prevEnd + request <= if i == |s| || IsUnused(s[i]) then n - 1 else s[i].start
    ensures Fits(s, n, prevEnd, request)
  {
    forall e | e in s && !IsUnused(e)
      ensures prevEnd + request <= e.start || EndOf(e) <= prevEnd
    {
      var k :| 0 <= k < |s| && s[k] == e;
      if k < i - 1 {
        assert Before(s[k], s[i - 1]) && InRange(s[i - 1], n);
      } else if k > i {
        assert Before(s[i], s[k]) && InRange(s[i], n);
      }
    }
    assert i < |s| ==> InRange(s[i], n);
  }

  lemma NoFitLeft(s: seq<Entry>, i: nat, prevEnd: nat, n: nat, request: nat)
    requires i <= |s| && 1 < n <= MAX_BLOCKS && request > 0 && AllInRange(s, n) && Sorted(s)
    requires i == |s| || IsUnused(s[i])
    requires i > 0 ==> !IsUnused(s[i - 1])
    requires 1 <= prevEnd <= n - 1 < prevEnd + request
    requires forall q :: !Fits(s, n, q, request)
    ensures Answers(s, n, request, Scan(s, i, prevEnd, n - 1, request))
  {
    forall k | 0 <= k < i
      ensures !IsUnused(s[k])
    {
      assert k < i - 1 ==> Before(s[k], s[i - 1]);
    }
    ScanPasses(s, i, prevEnd, n, request);
    if i < |s| {
      ScanUnused(s, i + 1, n, request);
    }
  }

  /** The gap up to the last block is too small. */
  lemma ScanPasses(s: seq<Entry>, i: nat, prevEnd: nat, n: nat, request: nat)
    requires i <= |s| && n <= MAX_BLOCKS && (i == |s| || IsUnused(s[i]))
    requires prevEnd <= n - 1 < prevEnd + request
    ensures Scan(s, i, prevEnd, n - 1, request) ==
              if i < |s| then Scan(s, i + 1, EndOf(s[i]), n - 1, request) else 0
  {
    assert Wrap64(n - 1 - prevEnd) == n - 1 - prevEnd;
  }

  // ---------------------------------------------------------------------------
  // create on the whole directory

  predicate HasEnd(es: seq<Entry>) {
    EndIndex(es) < |es|
  }

  /** The records before the end marker, files and unused ones. */
  function Used(es: seq<Entry>): seq<Entry> {
    es[..EndIndex(es)]
  }

  /** Every record lies inside the data blocks and no two files share a block. */
  predicate Good(es: seq<Entry>, n: nat) {
    |es| == DIRECTORY_SIZE && AllInRange(Used(es), n) && AllApart(Used(es))
  }

  ghost predicate CanFit(es: seq<Entry>, n: nat, request: nat) {
    exists q :: Fits(Used(es), n, q, request)
  }

  ghost predicate SomeMislead(es: seq<Entry>, n: nat, request: nat) {
    exists e :: e in Used(es) && Misleads(e, n, request)
  }

  lemma {:induction false} EndIndexIs(es: seq<Entry>, k: nat)
    requires k <= |es| && (k < |es| ==> IsEnd(es[k]))
    requires forall i :: 0 <= i < k ==> !IsEnd(es[i])
    ensures EndIndex(es) == k
  {
    if k > 0 {
      EndIndexIs(es[1..], k - 1);
    }
  }

  lemma {:induction false} EndIndexSound(es: seq<Entry>)
    ensures var k := EndIndex(es);
            (k < |es| ==> IsEnd(es[k])) && forall i :: 0 <= i < k ==> !IsEnd(es[i])
  {
    if es != [] && !IsEnd(es[0]) {
      EndIndexSound(es[1..]);
      forall i | 0 <= i < EndIndex(es)
        ensures !IsEnd(es[i])
      {
        assert i > 0 ==> es[i] == es[1..][i - 1];
      }
    }
  }

  lemma {:induction false} FirstFreeSound(es: seq<Entry>)
    ensures var k := FirstFree(es);
            && k <= EndIndex(es)
            && (k < EndIndex(es) ==> IsUnused(es[k]))
            && (forall i :: 0 <= i < k ==> IsFile(es[i]))
  {
    if es != [] && IsFile(es[0]) {
      FirstFreeSound(es[1..]);
      forall i | 0 <= i < FirstFree(es)
        ensures IsFile(es[i])
      {
        assert i > 0 ==> es[i] == es[1..][i - 1];
      }
    }
  }

  /** create touches at most two records: the first free one, which it fills with the name and an
      extent that holds the size asked for and no more, and the one after it, which it makes the
      end marker exactly if the first free one was. */
  lemma CreateTouches(es: seq<Entry>, numBlocks: nat, name: Name, maxsize: nat)
    requires numBlocks > 0
    ensures var es' := Create(es, numBlocks, name, maxsize);
            var k := FirstFree(es);
            && |es'| == |es|
            && (CreateOutcome(es, numBlocks, name, maxsize).Created? ==>
                 && k < |es| && es'[k].name == name && es'[k].size == 0
                 && HoldsExactly(es'[k].reserved, maxsize)
                 && (forall i :: 0 <= i < |es| && i != k && i != k + 1 ==> es'[i] == es[i])
                 && (k + 1 < |es| ==>
                      && es'[k + 1].start == es[k + 1].start && es'[k + 1].reserved == es[k + 1].reserved
                      && es'[k + 1].size == es[k + 1].size
                      && es'[k + 1].name == if k == NumUsed(es) then [] else es[k + 1].name))
            && (!CreateOutcome(es, numBlocks, name, maxsize).Created? ==> es' == es)
  {
    BlocksHold(maxsize);
  }

  /** delete touches one record, the file of that name, and of it only the first byte of the name:
      its extent stays, and it is no file any more. */
  lemma DeleteTouches(es: seq<Entry>, name: Name)
    ensures var es' := Delete(es, name);
            var k := Find(es, name);
            && |es'| == |es|
            && (forall i :: 0 <= i < |es| && i != k ==> es'[i] == es[i])
            && (k < |es| ==>
                 && IsFile(es[k]) && es[k].name == name && IsUnused(es'[k])
                 && es'[k].start == es[k].start && es'[k].reserved == es[k].reserved && es'[k].size == es[k].size
                 && |es'[k].name| == |name| && es'[k].name[1..] == name[1..])
  {
    FindSound(es, name);
  }

  /** create finds the name, or no record to fill, exactly if it is there, or all records are files. */
  lemma OutcomeIs(es: seq<Entry>, n: nat, name: Name, maxsize: nat)
    requires n > 0
    ensures var outcome := CreateOutcome(es, n, name, maxsize);
            && (outcome.AlreadyExists? <==> exists i :: 0 <= i < EndIndex(es) && IsFile(es[i]) && es[i].name == name)
            && (outcome.NoFreeEntry? <==>
                 !outcome.AlreadyExists? && forall i :: 0 <= i < |es| ==> IsFile(es[i]))
  {
    FindSound(es, name);
    FirstFreeSound(es);
    EndIndexSound(es);
  }

  lemma AnswersByMembers(s: seq<Entry>, t: seq<Entry>, n: nat, request: nat, p: nat)
    requires (forall e :: e in s <==> e in t) && Answers(s, n, request, p)
    ensures Answers(t, n, request, p)
  {
    assert forall q :: Fits(s, n, q, request) <==> Fits(t, n, q, request);
  }

  lemma NewStartAnswers(es: seq<Entry>, n: nat, request: nat)
    requires Good(es, n) && HasEnd(es) && 1 < n <= MAX_BLOCKS && request > 0
    ensures Answers(Used(es), n, request, NewStart(es, n, request))
  {
    var sorted := Sort(Used(es));
    SortIsSorted(Used(es), n);
    SameMembers(sorted, Used(es), n);
    ScanFiles(sorted, 0, 1, n, request);
    AnswersByMembers(sorted, Used(es), n, request, NewStart(es, n, request));
  }

  /** With an end marker, the new record replaces an unused one or is appended. */
  lemma RecordUsed(es: seq<Entry>, name: Name, start: nat, request: nat)
    requires HasEnd(es) && name != [] && |es| == DIRECTORY_SIZE
    ensures FirstFree(es) < |es|
    ensures var k := FirstFree(es);
            var e := Entry(name, start, request, 0);
            var es' := Record(es, name, start, request);
            && |es'| == |es|
            && Used(es') == if k < EndIndex(es) then Used(es)[k := e] else Used(es) + [e]
  {
    FirstFreeSound(es);
    EndIndexSound(es);
    var k, end, es' := FirstFree(es), EndIndex(es), Record(es, name, start, request);
    var e := Entry(name, start, request, 0);
    if k < end {
      assert es' == es[k := e];
      ReplacedIsUsed(es, k, e);
      assert es'[..end] == es[..end][k := e];
    } else {
      assert forall i :: 0 <= i < k ==> es'[i] == es[i];
      EndIndexIs(es', k + 1);
      assert es'[..k + 1] == es[..end] + [e];
    }
  }

  /** u' is u with file e in the place of an unused record, or at the end. */
  predicate Placed(u: seq<Entry>, u': seq<Entry>, k: nat, e: Entry) {
    && k <= |u| && (k < |u| ==> IsUnused(u[k]))
    && u' == (if k < |u| then u[k := e] else u + [e])
    && IsFile(e) && e.reserved > 0
  }

  lemma PlacedIsApart(u: seq<Entry>, u': seq<Entry>, k: nat, e: Entry, n: nat)
    requires Placed(u, u', k, e) && AllApart(u) && Fits(u, n, e.start, e.reserved)
    ensures AllApart(u')
  {
    forall i, j | 0 <= i < j < |u'|
      ensures Apart(u'[i], u'[j])
    {
      if i == k {
        assert u'[j] == u[j] && u[j] in u;
      } else if j == k {
        assert u'[i] == u[i] && u[i] in u;
      } else {
        assert Apart(u[i], u[j]);
      }
    }
  }

  lemma ApartPlacementFits(u: seq<Entry>, u': seq<Entry>, k: nat, e: Entry, n: nat)
    requires Placed(u, u', k, e) && AllInRange(u', n) && AllApart(u')
    ensures Fits(u, n, e.start, e.reserved)
  {
    assert InRange(u'[k], n);
    forall f | f in u && !IsUnused(f)
      ensures e.start + e.reserved <= f.start || EndOf(f) <= e.start
    {
      var i :| 0 <= i < |u| && u[i] == f;
      assert u'[i] == f;
      if i < k {
        assert Apart(u'[i], u'[k]);
      } else {
        assert Apart(u'[k], u'[i]);
      }
    }
  }

  lemma PlacedGoodIffFits(u: seq<Entry>, u': seq<Entry>, k: nat, e: Entry, n: nat)
    requires Placed(u, u', k, e) && AllInRange(u, n) && AllApart(u)
    ensures AllInRange(u', n) && AllApart(u') <==> Fits(u, n, e.start, e.reserved)
  {
    if Fits(u, n, e.start, e.reserved) {
      PlacedIsApart(u, u', k, e, n);
    }
    if AllInRange(u', n) && AllApart(u') {
      ApartPlacementFits(u, u', k, e, n);
    }
  }

  /** Adding a file keeps the directory good exactly if its blocks fit. */
  lemma GoodIffFits(es: seq<Entry>, n: nat, name: Name, start: nat, request: nat)
    requires Good(es, n) && HasEnd(es) && name != [] && name[0] != 1 && request > 0
    ensures FirstFree(es) < |es|
    ensures Good(Record(es, name, start, request), n) <==> Fits(Used(es), n, start, request)
  {
    RecordUsed(es, name, start, request);
    FirstFreeSound(es);
    PlacedGoodIffFits(Used(es), Used(Record(es, name, start, request)), FirstFree(es), Entry(name, start, request, 0), n);
  }

  /** create does what it should: it keeps the directory good, puts the file at the lowest fit,
      in as many blocks as hold it and no more, and reports no space exactly if nothing fits. */
  ghost predicate CreatesWell(es: seq<Entry>, n: nat, name: Name, maxsize: nat)
    requires n > 0
  {
    && Good(Create(es, n, name, maxsize), n)
    && (CreateOutcome(es, n, name, maxsize).NoSpace? <==> !CanFit(es, n, Blocks(maxsize)))
    && (CreateOutcome(es, n, name, maxsize).Created? ==>
         && Fits(Used(es), n, NewStart(es, n, Blocks(maxsize)), Blocks(maxsize))
         && (forall q :: Fits(Used(es), n, q, Blocks(maxsize)) ==> NewStart(es, n, Blocks(maxsize)) <= q)
         && var e := Create(es, n, name, maxsize)[FirstFree(es)];
            e.start == NewStart(es, n, Blocks(maxsize)) && HoldsExactly(e.reserved, maxsize))
  }

  /** On a good directory with an end marker, create of a new file does what it should exactly
      if something fits or no deleted record misleads it; in particular always when there are no
      deleted records. Otherwise the new file overlaps another. */
  lemma CreatesWellIffNotMisled(es: seq<Entry>, n: nat, name: Name, maxsize: nat)
    requires Good(es, n) && HasEnd(es) && 1 < n <= MAX_BLOCKS
    requires name != [] && name[0] != 1 && maxsize >= 1 && Find(es, name) == |es|
    ensures CreatesWell(es, n, name, maxsize) <==>
              CanFit(es, n, Blocks(maxsize)) || !SomeMislead(es, n, Blocks(maxsize))
  {
    BlocksHold(maxsize);
    var request := Blocks(maxsize);
    var p := NewStart(es, n, request);
    NewStartAnswers(es, n, request);
    GoodIffFits(es, n, name, p, request);
  }

  /** And when it is misled, the new file is created all the same and shares blocks with an
      existing one. */
  lemma MisledCreateOverlaps(es: seq<Entry>, n: nat, name: Name, maxsize: nat)
    requires Good(es, n) && HasEnd(es) && 1 < n <= MAX_BLOCKS
    requires name != [] && name[0] != 1 && maxsize >= 1 && Find(es, name) == |es|
    requires !CanFit(es, n, Blocks(maxsize)) && SomeMislead(es, n, Blocks(maxsize))
    ensures CreateOutcome(es, n, name, maxsize).Created? && !Good(Create(es, n, name, maxsize), n)
  {
    var request := Blocks(maxsize);
    var p := NewStart(es, n, request);
    NewStartAnswers(es, n, request);
    GoodIffFits(es, n, name, p, request);
    var e :| e in Used(es) && Misleads(e, n, request) && p == EndOf(e);
    assert InRange(e, n);
  }

  /** 10 blocks, one file on blocks 3 to 8, a deleted record for blocks 1 to 2: a request for 4
      blocks is granted at block 3, on top of the file. */
  lemma DeletedRecordMisleads()
    ensures exists es, name ::
              && Good(es, 10) && HasEnd(es) && Find(es, name) == |es|
              && CreateOutcome(es, 10, name, 8).Created? && !Good(Create(es, 10, name, 8), 10)
  {
    var end := Entry([], 0, 0, 0);
    var deleted, file := Entry([1, 97], 1, 2, 0), Entry([98], 3, 6, 0);
    var es := [deleted, file] + seq(62, _ => end);
    var name: Name := [99];
    EndIndexIs(es, 2);
    var u := Used(es);
    assert u == [deleted, file];
    assert Find(es, name) == |es| by {
      FindSound(es, name);
    }
    assert !CanFit(es, 10, 4) by {
      assert file in u;
    }
    assert SomeMislead(es, 10, 4) by {
      assert deleted in u && Misleads(deleted, 10, 4);
    }
    MisledCreateOverlaps(es, 10, name, 8);
  }

  /** Without an end marker the search sees no file at all: it takes block 1 whenever the disk is
      large enough. */
  lemma NewStartWithoutEnd(es: seq<Entry>, n: nat, request: nat)
    requires !HasEnd(es) && n > 0
    ensures NewStart(es, n, request) == if request <= Wrap64(n - 2) then 1 else 0
    ensures 1 < n <= MAX_BLOCKS ==> Wrap64(n - 2) == n - 2
  {
    assert es[..0] == [] && Sort([]) == [];
  }

  /** So create does what it should exactly if block 1 happens to be right or nothing can ever
      fit. */
  lemma WithoutEndMarker(es: seq<Entry>, n: nat, name: Name, maxsize: nat)
    requires Good(es, n) && !HasEnd(es) && 1 < n <= MAX_BLOCKS && FirstFree(es) < |es|
    requires name != [] && name[0] != 1 && maxsize >= 1 && Find(es, name) == |es|
    ensures CreatesWell(es, n, name, maxsize) <==>
              Fits(Used(es), n, 1, Blocks(maxsize)) || 1 + Blocks(maxsize) > n - 1
  {
    var request := Blocks(maxsize);
    NewStartWithoutEnd(es, n, request);
    BlocksHold(maxsize);
    if Fits(Used(es), n, 1, request) {
      RecordAtOneIsGoodIff(es, n, name, request);
    }
  }

  /** With the first record unused, the new file is the only one left. */
  lemma RecordAtOneIsGoodIff(es: seq<Entry>, n: nat, name: Name, request: nat)
    requires Good(es, n) && !HasEnd(es) && FirstFree(es) < |es| && 1 + request <= n - 1
    requires name != [] && name[0] != 1 && request > 0
    ensures Good(Record(es, name, 1, request), n) <==> FirstFree(es) == 0 || Fits(Used(es), n, 1, request)
  {
    FirstFreeSound(es);
    if FirstFree(es) > 0 {
      RecordWithoutEnd(es, name, 1, request);
      PlacedGoodIffFits(es, Used(Record(es, name, 1, request)), FirstFree(es), Entry(name, 1, request, 0), n);
    } else {
      EndIndexIs(Record(es, name, 1, request), 1);
    }
  }

  lemma ReplacedIsUsed(es: seq<Entry>, k: nat, e: Entry)
    requires k < EndIndex(es) && !IsEnd(e)
    ensures EndIndex(es[k := e]) == EndIndex(es)
  {
    EndIndexSound(es);
    var es' := es[k := e];
    assert forall i :: 0 <= i < EndIndex(es) ==> es'[i] == if i == k then e else es[i];
    EndIndexIs(es', EndIndex(es));
  }

  lemma RecordWithoutEnd(es: seq<Entry>, name: Name, start: nat, request: nat)
    requires !HasEnd(es) && 0 < FirstFree(es) < |es| && name != []
    ensures Used(es) == es
    ensures Used(Record(es, name, start, request)) == es[FirstFree(es) := Entry(name, start, request, 0)]
  {
    var k, e := FirstFree(es), Entry(name, start, request, 0);
    assert Record(es, name, start, request) == es[k := e];
    ReplacedIsUsed(es, k, e);
    assert es[..|es|] == es && es[k := e][..|es|] == es[k := e];
  }
}
