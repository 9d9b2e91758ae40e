/** The directory as a map from names to extents, over any sequence of creates and deletes. */
module BmfsNames {
  import opened Bmfs
  import opened BmfsAllocation

  /** A C string that fits the name field and is neither marker. */
  predicate ValidName(name: Name) {
    1 <= |name| <= 31 && name[0] != 1 && forall i :: 0 <= i < |name| ==> name[i] != 0
  }

  /** File f is listed in the directory. */
  predicate Lists(es: seq<Entry>, f: Entry) {
    f in Used(es) && IsFile(f)
  }

  predicate UniqueNames(u: seq<Entry>) {
    forall i, j :: 0 <= i < j < |u| && IsFile(u[i]) && IsFile(u[j]) ==> u[i].name != u[j].name
  }

  /** The directory lists exactly the entries of m, each under its own name. */
  ghost predicate Represents(es: seq<Entry>, m: map<Name, Entry>) {
    && UniqueNames(Used(es))
    && (forall f :: Lists(es, f) ==> f.name in m && m[f.name] == f)
    && (forall name :: name in m ==> Lists(es, m[name]) && m[name].name == name)
  }

  /** findfile is the lookup of that map. */
  lemma FindIsLookup(es: seq<Entry>, m: map<Name, Entry>, name: Name)
    requires Represents(es, m)
    ensures Find(es, name) < |es| <==> name in m
    ensures name in m ==> es[Find(es, name)] == m[name]
  {
    FindSound(es, name);
    var k := Find(es, name);
    if k < |es| {
      assert Used(es)[k] == es[k] && Lists(es, es[k]);
    }
    if name in m {
      var i :| 0 <= i < |Used(es)| && Used(es)[i] == m[name];
    }
  }

  /** Placing e changes what is listed by e alone. */
  lemma PlacedLists(es: seq<Entry>, es': seq<Entry>, k: nat, e: Entry)
    requires Placed(Used(es), Used(es'), k, e)
    ensures forall f :: Lists(es', f) ==> f == e || Lists(es, f)
    ensures forall f :: Lists(es, f) ==> Lists(es', f)
    ensures IsFile(e) ==> Lists(es', e)
  {
    var u, u' := Used(es), Used(es');
    assert u'[k] == e;
    forall f | Lists(es', f)
      ensures f == e || Lists(es, f)
    {
      var i :| 0 <= i < |u'| && u'[i] == f;
      assert i != k ==> u[i] == f;
    }
    forall f | Lists(es, f)
      ensures Lists(es', f)
    {
      var i :| 0 <= i < |u| && u[i] == f;
      assert u'[i] == f;
    }
  }

  lemma PlacedUnique(u: seq<Entry>, u': seq<Entry>, k: nat, e: Entry)
    requires UniqueNames(u) && Placed(u, u', k, e)
    requires forall i :: 0 <= i < |u| && IsFile(u[i]) ==> u[i].name != e.name
    ensures UniqueNames(u')
  {
    forall i, j | 0 <= i < j < |u'| && IsFile(u'[i]) && IsFile(u'[j])
      ensures u'[i].name != u'[j].name
    {
      assert i != k ==> u'[i] == u[i];
      assert j != k ==> u'[j] == u[j];
    }
  }

  lemma AddedRepresents(es: seq<Entry>, es': seq<Entry>, e: Entry, m: map<Name, Entry>)
    requires Represents(es, m) && UniqueNames(Used(es')) && e.name !in m
    requires forall f :: Lists(es', f) ==> f == e || Lists(es, f)
    requires forall f :: Lists(es, f) ==> Lists(es', f)
    requires Lists(es', e)
    ensures Represents(es', m[e.name := e])
  {}

  lemma PlacedRepresents(es: seq<Entry>, es': seq<Entry>, k: nat, e: Entry, m: map<Name, Entry>)
    requires Represents(es, m) && Placed(Used(es), Used(es'), k, e) && e.name !in m
    ensures Represents(es', m[e.name := e])
  {
    var u := Used(es);
    assert UniqueNames(Used(es')) by {
      assert forall i :: 0 <= i < |u| && IsFile(u[i]) ==> Lists(es, u[i]);
      PlacedUnique(u, Used(es'), k, e);
    }
    PlacedLists(es, es', k, e);
    AddedRepresents(es, es', e, m);
  }

  /** The entry a successful create adds. */
  function NewEntry(es: seq<Entry>, n: nat, name: Name, maxsize: nat): Entry
    requires n > 0
  {
    Entry(name, NewStart(es, n, Blocks(maxsize)), Blocks(maxsize), 0)
  }

  /** create adds its name and touches no other, when the directory has an end marker or its
      first record is in use. */
  lemma CreateRepresents(es: seq<Entry>, n: nat, name: Name, maxsize: nat, m: map<Name, Entry>)
    requires |es| == DIRECTORY_SIZE && Represents(es, m) && n > 0 && ValidName(name) && maxsize >= 1
    requires HasEnd(es) || !IsUnused(es[0])
    ensures var outcome := CreateOutcome(es, n, name, maxsize);
            && (outcome.AlreadyExists? <==> name in m)
            && (outcome.Created? ==>
                 Represents(Create(es, n, name, maxsize), m[name := NewEntry(es, n, name, maxsize)]))
            && (!outcome.Created? ==> Create(es, n, name, maxsize) == es)
  {
    FindIsLookup(es, m, name);
    if CreateOutcome(es, n, name, maxsize).Created? {
      var start, request := NewStart(es, n, Blocks(maxsize)), Blocks(maxsize);
      RecordIsPlaced(es, name, start, request);
      PlacedRepresents(es, Record(es, name, start, request), FirstFree(es), Entry(name, start, request, 0), m);
    }
  }

  lemma RecordIsPlaced(es: seq<Entry>, name: Name, start: nat, request: nat)
    requires |es| == DIRECTORY_SIZE && FirstFree(es) < |es| && ValidName(name) && request > 0
    requires HasEnd(es) || !IsUnused(es[0])
    ensures Placed(Used(es), Used(Record(es, name, start, request)), FirstFree(es), Entry(name, start, request, 0))
  {
    FirstFreeSound(es);
    EndIndexSound(es);
    if HasEnd(es) {
      RecordUsed(es, name, start, request);
    } else {
      RecordWithoutEnd(es, name, start, request);
    }
  }

  /** In the remaining case, no end marker and the first record unused, creating a file marks
      the second record as the end: every other file is gone from the directory. */
  lemma CreateWipes(es: seq<Entry>, n: nat, name: Name, maxsize: nat)
    requires |es| == DIRECTORY_SIZE && n > 0 && ValidName(name)
    requires !HasEnd(es) && IsUnused(es[0]) && CreateOutcome(es, n, name, maxsize).Created?
    ensures Used(Create(es, n, name, maxsize)) == [NewEntry(es, n, name, maxsize)]
  {
    EndIndexIs(Create(es, n, name, maxsize), 1);
  }

  lemma SingletonRepresents(es: seq<Entry>, e: Entry, m: map<Name, Entry>)
    requires Used(es) == [e] && IsFile(e) && e.name !in m
    ensures Represents(es, m[e.name := e]) <==> m == map[]
  {
    assert Used(es)[0] == e && Lists(es, e);
    assert forall f :: Lists(es, f) <==> f == e;
    if m != map[] {
      var name :| name in m;
      assert m[e.name := e][name] == m[name] && name != e.name;
    }
  }

  /** What a caller can check before a create: the directory has an end marker, or its first
      record is in use, or it lists no file, or it lists this name, or the disk is too small for
      the file even when empty. */
  predicate NameSafe(es: seq<Entry>, n: nat, name: Name, maxsize: nat, m: map<Name, Entry>)
    requires |es| == DIRECTORY_SIZE && n > 0
  {
    HasEnd(es) || !IsUnused(es[0]) || m == map[] || name in m || Blocks(maxsize) > Wrap64(n - 2)
  }

  /** create does to the map what it should exactly if it is safe for names. */
  lemma CreateRefinesIff(es: seq<Entry>, n: nat, name: Name, maxsize: nat, m: map<Name, Entry>)
    requires |es| == DIRECTORY_SIZE && Represents(es, m) && n > 0 && ValidName(name) && maxsize >= 1
    ensures Represents(Create(es, n, name, maxsize), ApplyToMap(m, es, n, CreateOp(name, maxsize))) <==>
              NameSafe(es, n, name, maxsize, m)
  {
    FindIsLookup(es, m, name);
    if HasEnd(es) || !IsUnused(es[0]) {
      CreateRepresents(es, n, name, maxsize, m);
      return;
    }
    NewStartWithoutEnd(es, n, Blocks(maxsize));
    if CreateOutcome(es, n, name, maxsize).Created? {
      CreateWipes(es, n, name, maxsize);
      SingletonRepresents(Create(es, n, name, maxsize), NewEntry(es, n, name, maxsize), m);
    }
  }

  /** delete removes its name and touches no other. */
  lemma DeleteRepresents(es: seq<Entry>, name: Name, m: map<Name, Entry>)
    requires Represents(es, m)
    ensures Represents(Delete(es, name), m - {name})
    ensures EndIndex(Delete(es, name)) == EndIndex(es)
  {
    FindSound(es, name);
    FindIsLookup(es, m, name);
    var k, es' := Find(es, name), Delete(es, name);
    if k == |es| {
      assert m - {name} == m;
    } else {
      EndIndexSound(es);
      EndIndexIs(es', EndIndex(es));
      var u, u' := Used(es), Used(es');
      assert u' == u[k := es'[k]];
      assert IsUnused(u'[k]);
      forall f | Lists(es', f)
        ensures Lists(es, f) && f.name != name
      {
        var i :| 0 <= i < |u'| && u'[i] == f;
        assert u[i] == f && (if i < k then u[i].name != u[k].name else u[k].name != u[i].name);
      }
      forall f | Lists(es, f) && f.name != name
        ensures Lists(es', f)
      {
        var i :| 0 <= i < |u| && u[i] == f;
        assert u'[i] == f;
      }
    }
  }

  lemma DeleteKeepsGood(es: seq<Entry>, n: nat, name: Name)
    requires Good(es, n)
    ensures Good(Delete(es, name), n)
  {
    FindSound(es, name);
    EndIndexSound(es);
    var k, es' := Find(es, name), Delete(es, name);
    if k < |es| {
      EndIndexIs(es', EndIndex(es));
      assert Used(es') == Used(es)[k := es'[k]] && IsUnused(es'[k]) && InRange(Used(es)[k], n);
    }
  }

  // ---------------------------------------------------------------------------
  // Any sequence of creates and deletes

  datatype Op = CreateOp(name: Name, maxsize: nat) | DeleteOp(name: Name)

  function Apply(es: seq<Entry>, n: nat, op: Op): seq<Entry>
    requires n > 0
  {
    match op
    case CreateOp(name, maxsize) => Create(es, n, name, maxsize)
    case DeleteOp(name) => Delete(es, name)
  }

  /** The same operation on the map. Whether a new file finds a place, and which, comes from the
      directory. */
  function ApplyToMap(m: map<Name, Entry>, es: seq<Entry>, n: nat, op: Op): map<Name, Entry>
    requires n > 0
  {
    match op
    case CreateOp(name, maxsize) =>
      if CreateOutcome(es, n, name, maxsize).Created? then m[name := NewEntry(es, n, name, maxsize)] else m
    case DeleteOp(name) => m - {name}
  }

  function Run(es: seq<Entry>, n: nat, ops: seq<Op>): seq<Entry>
    requires n > 0
    decreases |ops|
  {
    if ops == [] then es else Run(Apply(es, n, ops[0]), n, ops[1..])
  }

  function RunOnMap(m: map<Name, Entry>, es: seq<Entry>, n: nat, ops: seq<Op>): map<Name, Entry>
    requires n > 0
    decreases |ops|
  {
    if ops == [] then m else RunOnMap(ApplyToMap(m, es, n, ops[0]), Apply(es, n, ops[0]), n, ops[1..])
  }

  /** Names fit their field, and sizes are what the command line demands. */
  predicate WellFormed(ops: seq<Op>) {
    forall i :: 0 <= i < |ops| && ops[i].CreateOp? ==> ValidName(ops[i].name) && ops[i].maxsize >= 1
  }

  /** Every create of the sequence is safe for names when its turn comes. */
  ghost predicate AllNameSafe(es: seq<Entry>, m: map<Name, Entry>, n: nat, ops: seq<Op>)
    requires |es| == DIRECTORY_SIZE && n > 0
    decreases |ops|
  {
    ops == [] || (
      && (ops[0].CreateOp? ==> NameSafe(es, n, ops[0].name, ops[0].maxsize, m))
      && AllNameSafe(Apply(es, n, ops[0]), ApplyToMap(m, es, n, ops[0]), n, ops[1..]))
  }

  /** The directory represents the map before, between and after all operations. */
  ghost predicate RepresentsThroughout(es: seq<Entry>, m: map<Name, Entry>, n: nat, ops: seq<Op>)
    requires n > 0
    decreases |ops|
  {
    && Represents(es, m)
    && (ops != [] ==> RepresentsThroughout(Apply(es, n, ops[0]), ApplyToMap(m, es, n, ops[0]), n, ops[1..]))
  }

  /** Over every sequence of creates and deletes, on every directory, with end markers and reused
      slots, the directory behaves as the map exactly if every create is safe for names. */
  lemma {:induction false} DirectoryRefinesMapIff(es: seq<Entry>, m: map<Name, Entry>, n: nat, ops: seq<Op>)
    requires |es| == DIRECTORY_SIZE && Represents(es, m) && n > 0 && WellFormed(ops)
    ensures RepresentsThroughout(es, m, n, ops) <==> AllNameSafe(es, m, n, ops)
    ensures AllNameSafe(es, m, n, ops) ==> Represents(Run(es, n, ops), RunOnMap(m, es, n, ops))
    decreases |ops|
  {
    if ops != [] {
      var es', m' := Apply(es, n, ops[0]), ApplyToMap(m, es, n, ops[0]);
      match ops[0] {
        case CreateOp(name, maxsize) => CreateRefinesIff(es, n, name, maxsize, m);
        case DeleteOp(name) => DeleteRepresents(es, name, m);
      }
      if Represents(es', m') {
        DirectoryRefinesMapIff(es', m', n, ops[1..]);
      }
    }
  }

  /** What a caller can check before a create, to keep files apart: the name exists, or there is
      no record to fill, or the search is not misled; without an end marker, which hides all files
      from the search, that block 1 is free for the file, or too near the end of the disk, or that
      the first record is unused, since then the other files are dropped. */
  ghost predicate Careful(es: seq<Entry>, n: nat, op: Op) {
    op.CreateOp? ==>
      var request := Blocks(op.maxsize);
      || Find(es, op.name) < |es|
      || FirstFree(es) == |es|
      || if HasEnd(es) then CanFit(es, n, request) || !SomeMislead(es, n, request)
         else FirstFree(es) == 0 || Fits(Used(es), n, 1, request) || 1 + request > n - 1
  }

  /** A create keeps files apart and inside the disk exactly if it is careful. */
  lemma CreateKeepsGoodIff(es: seq<Entry>, n: nat, name: Name, maxsize: nat)
    requires Good(es, n) && 1 < n <= MAX_BLOCKS && ValidName(name) && maxsize >= 1
    ensures Good(Create(es, n, name, maxsize), n) <==> Careful(es, n, CreateOp(name, maxsize))
  {
    var request := Blocks(maxsize);
    if Find(es, name) == |es| && FirstFree(es) < |es| {
      if HasEnd(es) {
        CreatesWellIffNotMisled(es, n, name, maxsize);
        if !CanFit(es, n, request) && SomeMislead(es, n, request) {
          MisledCreateOverlaps(es, n, name, maxsize);
        }
      } else {
        NewStartWithoutEnd(es, n, request);
        if 1 + request <= n - 1 {
          RecordAtOneIsGoodIff(es, n, name, request);
        }
      }
    }
  }

  ghost predicate AllCareful(es: seq<Entry>, n: nat, ops: seq<Op>)
    requires n > 0
    decreases |ops|
  {
    ops == [] || (Careful(es, n, ops[0]) && AllCareful(Apply(es, n, ops[0]), n, ops[1..]))
  }

  /** The directory is good before, between and after all operations. */
  ghost predicate GoodThroughout(es: seq<Entry>, n: nat, ops: seq<Op>)
    requires n > 0
    decreases |ops|
  {
    Good(es, n) && (ops != [] ==> GoodThroughout(Apply(es, n, ops[0]), n, ops[1..]))
  }

  /** Over every sequence of creates and deletes, no two files ever share a block, and all stay
      inside the data blocks, exactly if every create is careful. */
  lemma {:induction false} DirectoryStaysGoodIff(es: seq<Entry>, n: nat, ops: seq<Op>)
    requires Good(es, n) && 1 < n <= MAX_BLOCKS && WellFormed(ops)
    ensures GoodThroughout(es, n, ops) <==> AllCareful(es, n, ops)
    ensures AllCareful(es, n, ops) ==> Good(Run(es, n, ops), n)
    decreases |ops|
  {
    if ops != [] {
      match ops[0] {
        case CreateOp(name, maxsize) => CreateKeepsGoodIff(es, n, name, maxsize);
        case DeleteOp(name) => DeleteKeepsGood(es, n, name);
      }
      if Good(Apply(es, n, ops[0]), n) {
        DirectoryStaysGoodIff(Apply(es, n, ops[0]), n, ops[1..]);
      }
    }
  }

  // ---------------------------------------------------------------------------
  // Full directories with one deleted record

  /** The i-th of 64 names: up to 31 times the same letter. */
  function NameOf(i: nat): Name
    requires i < DIRECTORY_SIZE
  {
    if i < 31 then seq(i + 1, _ => 97) else if i < 62 then seq(i - 30, _ => 98) else seq(i - 61, _ => 99)
  }

  const NEW_NAME: Name := [100]

  /** A good directory of 64 records and no end marker, filling the blocks from 1 on, in which the
      k-th record alone is deleted. */
  ghost predicate FullButOne(es: seq<Entry>, k: nat) {
    && Good(es, 100) && !HasEnd(es) && Used(es) == es && FirstFree(es) == k
    && UniqueNames(es) && Find(es, NEW_NAME) == |es|
    && (forall i :: 0 <= i < |es| ==> es[i].start == i + 1 && es[i].reserved == 1)
    && (forall i :: 0 <= i < |es| && i != k ==> Lists(es, es[i]))
  }

  lemma NamesDiffer(i: nat, j: nat)
    requires i < j < DIRECTORY_SIZE
    ensures NameOf(i) != NameOf(j) && ValidName(NameOf(i)) && ValidName(NameOf(j))
  {
    if |NameOf(i)| == |NameOf(j)| {
      assert NameOf(i)[0] != NameOf(j)[0];
    }
  }

  /** What the 64 records are, one by one. */
  predicate RecordIs(e: Entry, i: nat, k: nat)
    requires i < DIRECTORY_SIZE
  {
    && e.start == i + 1 && e.reserved == 1
    && (if i == k then IsUnused(e) else IsFile(e) && e.name == NameOf(i) && e.name != NEW_NAME)
  }

  lemma RecordsFill(es: seq<Entry>, k: nat)
    requires |es| == DIRECTORY_SIZE && k < |es|
    requires forall i :: 0 <= i < |es| ==> RecordIs(es[i], i, k)
    ensures FullButOne(es, k)
  {
    EndIndexIs(es, |es|);
    assert Used(es) == es;
    assert RecordIs(es[k], k, k);
    assert FirstFree(es) == k by {
      FirstFreeSound(es);
    }
    assert Find(es, NEW_NAME) == |es| by {
      FindSound(es, NEW_NAME);
    }
    forall i | 0 <= i < |es| && i != k
      ensures Lists(es, es[i])
    {
      assert RecordIs(es[i], i, k);
    }
    assert Good(es, 100);
    assert UniqueNames(es) by {
      forall i, j | 0 <= i < j < |es| && IsFile(es[i]) && IsFile(es[j])
        ensures es[i].name != es[j].name
      {
        NamesDiffer(i, j);
      }
    }
  }

  lemma FullDirectory(k: nat) returns (es: seq<Entry>)
    requires k < DIRECTORY_SIZE
    ensures FullButOne(es, k)
  {
    es := seq(DIRECTORY_SIZE, (i: nat) requires i < DIRECTORY_SIZE =>
      Entry(if i == k then [1] + NameOf(i)[1..] else NameOf(i), i + 1, 1, 0));
    forall i | 0 <= i < |es|
      ensures RecordIs(es[i], i, k)
    {
      assert i != k ==> es[i].name[0] != 100;
    }
    RecordsFill(es, k);
  }

  /** With the second record deleted, create writes over the first file. */
  lemma MissingEndMarkerMisleads()
    ensures exists es :: FullButOne(es, 1)
              && CreateOutcome(es, 100, NEW_NAME, 2).Created? && !Good(Create(es, 100, NEW_NAME, 2), 100)
  {
    var es := FullDirectory(1);
    NewStartWithoutEnd(es, 100, 1);
    RecordWithoutEnd(es, NEW_NAME, 1, 1);
    var u := Used(Record(es, NEW_NAME, 1, 1));
    assert !Apart(u[0], u[1]);
  }

  /** With the first record deleted, the 63 files are gone after the next create. */
  lemma CreateWipesADirectory()
    ensures exists es :: FullButOne(es, 0)
              && CreateOutcome(es, 100, NEW_NAME, 2).Created?
              && forall f :: Lists(Create(es, 100, NEW_NAME, 2), f) ==> f.name == NEW_NAME
  {
    var es := FullDirectory(0);
    NewStartWithoutEnd(es, 100, 1);
    FirstFreeSound(es);
    CreateWipes(es, 100, NEW_NAME, 2);
  }
}
