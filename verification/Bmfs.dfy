/** The in-memory directory of the BMFS disk utility: 64 records, first-fit allocation of
    contiguous block ranges. A record's name is the C string in its 32-byte field: empty marks
    the end of the directory, a first byte of 1 an unused record. */
module Bmfs {

  type Name = seq<bv8>

  datatype Entry = Entry(name: Name, start: nat, reserved: nat, size: nat)

  const DIRECTORY_SIZE: nat := 64

  predicate IsEnd(e: Entry) {
    e.name == []
  }

  predicate IsUnused(e: Entry) {
    e.name != [] && e.name[0] == 1
  }

  predicate IsFile(e: Entry) {
    !IsEnd(e) && !IsUnused(e)
  }

  function EndOf(e: Entry): nat {
    e.start + e.reserved
  }

  // ---------------------------------------------------------------------------
  // The scans

  /** Index of the end marker, or the number of records. */
  function EndIndex(es: seq<Entry>): (k: nat)
    ensures k <= |es|
  {
    if es == [] || IsEnd(es[0]) then 0 else 1 + EndIndex(es[1..])
  }

  /** findfile: the first file record of that name before the end marker, or |es|. */
  function Find(es: seq<Entry>, name: Name): (k: nat)
    ensures k <= |es|
  {
    if es == [] then 0
    else if IsEnd(es[0]) then |es|
    else if IsFile(es[0]) && es[0].name == name then 0
    else 1 + Find(es[1..], name)
  }

  /** The record create will fill: the first unused one before the end marker, else the marker
      itself, or |es| if there is neither. */
  function FirstFree(es: seq<Entry>): (k: nat)
    ensures k <= |es|
  {
    if es == [] || IsEnd(es[0]) || IsUnused(es[0]) then 0 else 1 + FirstFree(es[1..])
  }

  /** num_used_entries: it keeps its initial 0 when the directory has no end marker. */
  function NumUsed(es: seq<Entry>): (k: nat)
    ensures k <= |es|
  {
    var k := EndIndex(es);
    if k < |es| then k else 0
  }

  // ---------------------------------------------------------------------------
  // Sorting and the gap search

  function Wrap64(x: int): int {
    x % 0x1_0000_0000_0000_0000
  }

  /** Conversion of a 64-bit value to int. */
  function ToInt32(x: int): int {
    var low := x % 0x1_0000_0000;
    if low < 0x8000_0000 then low else low - 0x1_0000_0000
  }

  function StartingBlockCmp(a: Entry, b: Entry): int {
    if IsUnused(a) then 1
    else if IsUnused(b) then -1
    else ToInt32(Wrap64(a.start - b.start))
  }

  function Insert(x: Entry, s: seq<Entry>): seq<Entry> {
    if s == [] || StartingBlockCmp(x, s[0]) <= 0 then [x] + s else [s[0]] + Insert(x, s[1..])
  }

  /** Stands for the library's qsort with StartingBlockCmp. */
  function Sort(s: seq<Entry>): seq<Entry> {
    if s == [] then [] else Insert(s[0], Sort(s[1..]))
  }

  /** The loop over the sorted copy, from record i on; 0 if it finds nothing. `last` is the last
      block of the disk. */
  function Scan(sorted: seq<Entry>, i: nat, prevEnd: nat, last: nat, request: nat): nat
    requires i <= |sorted|
    decreases |sorted| - i
  {
    var thisStart := if i == |sorted| || IsUnused(sorted[i]) then last else sorted[i].start;
    if Wrap64(thisStart - prevEnd) >= request then prevEnd
    else if i < |sorted| then Scan(sorted, i + 1, EndOf(sorted[i]), last, request)
    else 0
  }

  // ---------------------------------------------------------------------------
  // The operations

  datatype Outcome = Created | AlreadyExists | NoFreeEntry | NoSpace

  /** Blocks of 2 MiB for a size in MiB. */
  function Blocks(maxsize: nat): nat {
    (if maxsize % 2 != 0 then maxsize + 1 else maxsize) / 2
  }

  /** `blocks` hold `maxsize` MiB, and one less would not. */
  predicate HoldsExactly(blocks: nat, maxsize: nat) {
    2 * blocks >= maxsize && (blocks > 0 ==> 2 * (blocks - 1) < maxsize)
  }

  lemma BlocksHold(maxsize: nat)
    ensures HoldsExactly(Blocks(maxsize), maxsize)
  {}

  function NewStart(es: seq<Entry>, numBlocks: nat, request: nat): nat
    requires numBlocks > 0
  {
    Scan(Sort(es[..NumUsed(es)]), 0, 1, numBlocks - 1, request)
  }

  /** Writes the record; if it took the end marker's place, the next record becomes the marker. */
  function Record(es: seq<Entry>, name: Name, start: nat, request: nat): seq<Entry>
    requires FirstFree(es) < |es|
  {
    var k := FirstFree(es);
    var es' := es[k := Entry(name, start, request, 0)];
    if k == NumUsed(es) && k + 1 < |es| then es'[k + 1 := es'[k + 1].(name := [])] else es'
  }

  function CreateOutcome(es: seq<Entry>, numBlocks: nat, name: Name, maxsize: nat): Outcome
    requires numBlocks > 0
  {
    if Find(es, name) < |es| then AlreadyExists
    else if FirstFree(es) == |es| then NoFreeEntry
    else if NewStart(es, numBlocks, Blocks(maxsize)) == 0 then NoSpace
    else Created
  }

  function Create(es: seq<Entry>, numBlocks: nat, name: Name, maxsize: nat): seq<Entry>
    requires numBlocks > 0
  {
    if CreateOutcome(es, numBlocks, name, maxsize).Created?
    then Record(es, name, NewStart(es, numBlocks, Blocks(maxsize)), Blocks(maxsize))
    else es
  }

  /** Only the first byte of the name is overwritten. */
  function Delete(es: seq<Entry>, name: Name): seq<Entry> {
    var k := Find(es, name);
    if k < |es| && es[k].name != [] then es[k := es[k].(name := [1] + es[k].name[1..])] else es
  }

  // ---------------------------------------------------------------------------
  // The directory object

  class Directory {
    const entries: array<Entry>
    const numBlocks: nat

    ghost predicate Valid()
      reads this
    {
      entries.Length == DIRECTORY_SIZE && numBlocks > 0
    }

    constructor (numBlocks: nat)
      requires numBlocks > 0
      ensures Valid() && this.numBlocks == numBlocks && fresh(entries)
      ensures forall i :: 0 <= i < DIRECTORY_SIZE ==> IsEnd(entries[i])
    {
      this.numBlocks := numBlocks;
      entries := new Entry[DIRECTORY_SIZE](_ => Entry([], 0, 0, 0));
    }

    method FindFile(name: Name) returns (slot: nat)
      requires Valid()
      ensures slot == Find(entries[..], name)
    {
      var i := 0;
      ghost var es := entries[..];
      while i < DIRECTORY_SIZE
        invariant 0 <= i <= DIRECTORY_SIZE
        invariant Find(es, name) == i + Find(es[i..], name)
      {
        var e := entries[i];
        assert es[i..][0] == e && es[i..][1..] == es[i + 1..];
        if IsEnd(e) {
          return DIRECTORY_SIZE;
        } else if IsUnused(e) {
        } else if e.name == name {
          return i;
        }
        i := i + 1;
      }
      slot := i;
    }

    /** The loop that counts used records and picks the first free one (-1: none). */
    method CountEntries() returns (numUsed: nat, firstFree: int)
      requires Valid()
      ensures numUsed == NumUsed(entries[..])
      ensures firstFree == if FirstFree(entries[..]) < DIRECTORY_SIZE then FirstFree(entries[..]) else -1
    {
      numUsed, firstFree := 0, -1;
      ghost var es := entries[..];
      var i := 0;
      while i < DIRECTORY_SIZE
        invariant 0 <= i <= DIRECTORY_SIZE && numUsed == 0
        invariant EndIndex(es) == i + EndIndex(es[i..])
        invariant firstFree == -1 ==> FirstFree(es) == i + FirstFree(es[i..])
        invariant firstFree != -1 ==> 0 <= firstFree < DIRECTORY_SIZE && FirstFree(es) == firstFree
      {
        var e := entries[i];
        assert es[i..][0] == e && es[i..][1..] == es[i + 1..];
        if IsEnd(e) {
          numUsed := i;
          if firstFree == -1 {
            firstFree := i;
          }
          return;
        } else if IsUnused(e) {
          if firstFree == -1 {
            firstFree := i;
          }
        }
        i := i + 1;
      }
    }

    /** The search for the first gap that is large enough. */
    method FindGap(sorted: seq<Entry>, request: nat) returns (start: nat)
      requires Valid()
      ensures start == Scan(sorted, 0, 1, numBlocks - 1, request)
    {
      var prevEnd := 1;
      for i := 0 to |sorted| + 1
        invariant i <= |sorted| ==> Scan(sorted, 0, 1, numBlocks - 1, request) == Scan(sorted, i, prevEnd, numBlocks - 1, request)
        invariant i == |sorted| + 1 ==> Scan(sorted, 0, 1, numBlocks - 1, request) == 0
      {
        var thisStart := if i == |sorted| || IsUnused(sorted[i]) then numBlocks - 1 else sorted[i].start;
        if Wrap64(thisStart - prevEnd) >= request {
          return prevEnd;
        }
        if i < |sorted| {
          prevEnd := EndOf(sorted[i]);
        }
      }
      start := 0;
    }

    method CreateFile(name: Name, maxsize: nat) returns (outcome: Outcome)
      requires Valid()
      modifies entries
      ensures outcome == CreateOutcome(old(entries[..]), numBlocks, name, maxsize)
      ensures entries[..] == Create(old(entries[..]), numBlocks, name, maxsize)
    {
      var slot := FindFile(name);
      if slot < DIRECTORY_SIZE {
        return AlreadyExists;
      }
      var numUsed, firstFree := CountEntries();
      if firstFree == -1 {
        return NoFreeEntry;
      }
      var start := FindGap(Sort(entries[..numUsed]), Blocks(maxsize));
      if start == 0 {
        return NoSpace;
      }
      ghost var es := entries[..];
      assert entries[..numUsed] == es[..numUsed];
      entries[firstFree] := Entry(name, start, Blocks(maxsize), 0);
      if firstFree == numUsed && numUsed + 1 < DIRECTORY_SIZE {
        entries[numUsed + 1] := entries[numUsed + 1].(name := []);
      }
      assert entries[..] == Record(es, name, start, Blocks(maxsize));
      outcome := Created;
    }

    method DeleteFile(name: Name) returns (found: bool)
      requires Valid()
      modifies entries
      ensures found == (Find(old(entries[..]), name) < DIRECTORY_SIZE)
      ensures entries[..] == Delete(old(entries[..]), name)
    {
      var slot := FindFile(name);
      found := slot < DIRECTORY_SIZE;
      if found {
        FindSound(entries[..], name);
        entries[slot] := entries[slot].(name := [1] + entries[slot].name[1..]);
      }
    }
  }

  lemma {:induction false} FindSound(es: seq<Entry>, name: Name)
    ensures var k := Find(es, name);
            && (k < |es| ==> k < EndIndex(es) && IsFile(es[k]) && es[k].name == name)
            && (forall i :: 0 <= i < k && i < EndIndex(es) ==> !(IsFile(es[i]) && es[i].name == name))
  {
    if es != [] && !IsEnd(es[0]) {
      FindSound(es[1..], name);
      var k := Find(es, name);
      forall i | 0 <= i < k && i < EndIndex(es)
        ensures !(IsFile(es[i]) && es[i].name == name)
      {
        assert i > 0 ==> es[i] == es[1..][i - 1];
      }
    }
  }
}
