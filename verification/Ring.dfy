/** The table as a ring of moods: which neighbours a seat has, and what eating, rising,
    joining and leaving do to "no two neighbours eat" and to "a hungry seat has an eating
    neighbour". */
module Ring {

  datatype Mood = Thinking | Hungry | Eating | Dying

  function Left(x: nat, n: nat): (l: nat)
    ensures x < n ==> l == if x == 0 then n - 1 else x - 1
  {
    (x + n - 1) % (if n != 0 then n else 1)
  }

  function Right(x: nat, n: nat): (r: nat)
    ensures x < n ==> r == if x == n - 1 then 0 else x + 1
  {
    (x + 1) % (if n != 0 then n else 1)
  }

  predicate Eats(m: seq<Mood>, i: nat) {
    i < |m| && m[i].Eating?
  }

  predicate MayEat(n: nat, m: seq<Mood>, j: nat) {
    && j < |m| && m[j].Hungry?
    && !Eats(m, Left(j, n)) && !Eats(m, Right(j, n))
  }

  predicate Adjacent(n: nat, i: nat, j: nat) {
    i < n && j < n && i != j && (j == Left(i, n) || j == Right(i, n))
  }

  /** No two distinct neighbours eat. */
  ghost predicate Apart(n: nat, m: seq<Mood>) {
    forall i: nat, j: nat :: Adjacent(n, i, j) ==> !(Eats(m, i) && Eats(m, j))
  }

  ghost predicate HasEatingNeighbour(n: nat, m: seq<Mood>, i: nat) {
    exists j: nat :: Adjacent(n, i, j) && Eats(m, j)
  }

  /** Every hungry seat outside `except` has an eating neighbour. */
  ghost predicate Served(n: nat, m: seq<Mood>, except: set<nat>) {
    forall i :: 0 <= i < n && i < |m| && m[i].Hungry? && i !in except ==> HasEatingNeighbour(n, m, i)
  }

  lemma ServedMonotone(n: nat, m: seq<Mood>, less: set<nat>, more: set<nat>)
    requires Served(n, m, less) && less <= more
    ensures Served(n, m, more)
  {}

  lemma FastingKeepsApart(n: nat, m: seq<Mood>, i: nat, mood: Mood)
    requires n <= |m| && i < |m| && Apart(n, m) && !mood.Eating?
    ensures Apart(n, m[i := mood])
  {}

  /** What the code tests, the neighbour expressions LEFT and RIGHT, is adjacency. */
  lemma MayEatIffNoEatingNeighbour(n: nat, m: seq<Mood>, j: nat)
    requires j < n <= |m| && m[j].Hungry?
    ensures MayEat(n, m, j) <==> !HasEatingNeighbour(n, m, j)
  {
    if !MayEat(n, m, j) {
      var k := if Eats(m, Left(j, n)) then Left(j, n) else Right(j, n);
      assert Adjacent(n, j, k);
    }
  }

  lemma EatKeepsApart(n: nat, m: seq<Mood>, j: nat)
    requires n <= |m| && j < n && Apart(n, m) && MayEat(n, m, j)
    ensures Apart(n, m[j := Eating])
  {}

  lemma EatServes(n: nat, m: seq<Mood>, except: set<nat>, j: nat)
    requires n <= |m| && j < n && m[j].Hungry? && Served(n, m, except)
    ensures Served(n, m[j := Eating], except - {j})
  {
    var m' := m[j := Eating];
    forall i | 0 <= i < n && m'[i].Hungry? && i !in except
      ensures HasEatingNeighbour(n, m', i)
    {
      var k :| Adjacent(n, i, k) && Eats(m, k);
      assert Eats(m', k);
    }
  }

  lemma TestedIsServed(n: nat, m: seq<Mood>, except: set<nat>, j: nat)
    requires n <= |m| && j < n && !MayEat(n, m, j) && Served(n, m, except)
    ensures Served(n, m, except - {j})
  {
    if m[j].Hungry? {
      MayEatIffNoEatingNeighbour(n, m, j);
    }
  }

  /** A seat that stops eating can only leave its two neighbours unserved. */
  lemma RiseServes(n: nat, m: seq<Mood>, except: set<nat>, i: nat, mood: Mood)
    requires n <= |m| && i < n && !mood.Hungry? && Served(n, m, except)
    ensures Served(n, m[i := mood], except + {Left(i, n), Right(i, n)})
  {
    var m' := m[i := mood];
    forall j | 0 <= j < n && m'[j].Hungry? && j !in except + {Left(i, n), Right(i, n)}
      ensures HasEatingNeighbour(n, m', j)
    {
      var k :| Adjacent(n, j, k) && Eats(m, k);
      assert Eats(m', k);
    }
  }

  /** A seat that was not eating changes nothing for the others. */
  lemma QuietServes(n: nat, m: seq<Mood>, except: set<nat>, i: nat, mood: Mood)
    requires n <= |m| && i < |m| && !m[i].Eating? && Served(n, m, except)
    ensures Served(n, m[i := mood], except + (if mood.Hungry? then {i} else {}))
  {
    var m' := m[i := mood];
    forall j | 0 <= j < n && m'[j].Hungry? && j !in except && (mood.Hungry? ==> j != i)
      ensures HasEatingNeighbour(n, m', j)
    {
      var k :| Adjacent(n, j, k) && Eats(m, k);
      assert Eats(m', k);
    }
  }

  /** Seat i is hungry, and its only eating neighbour is across the place where seat n is to
      come: it is seat 0 or n - 1, and the other of the two eats. */
  predicate Orphaned(n: nat, m: seq<Mood>, i: nat) {
    && n >= 3 && i < n <= |m| && m[i].Hungry?
    && ((i == 0 && Eats(m, n - 1) && !Eats(m, 1)) || (i == n - 1 && Eats(m, 0) && !Eats(m, n - 2)))
  }

  function Orphans(n: nat, m: seq<Mood>): set<nat> {
    set i: nat | i < n && Orphaned(n, m, i)
  }

  /** Inserting seat n takes a hungry seat's last eating neighbour away exactly from those. */
  lemma InsertionOrphansExactly(n: nat, m: seq<Mood>, i: nat)
    requires i < n < |m| && !m[n].Eating? && m[i].Hungry? && HasEatingNeighbour(n, m, i)
    ensures !HasEatingNeighbour(n + 1, m, i) <==> Orphaned(n, m, i)
  {
    var j: nat :| Adjacent(n, i, j) && Eats(m, j);
    if !Orphaned(n, m, i) {
      var k: nat := if Adjacent(n + 1, i, j) then j else if i == 0 then 1 else i - 1;
      assert Adjacent(n + 1, i, k) && Eats(m, k);
    }
  }

  /** A new last seat leaves nobody else unserved. */
  lemma JoinServes(n: nat, m: seq<Mood>, except: set<nat>)
    requires n < |m| && !m[n].Hungry? && !m[n].Eating? && Served(n, m, except) && Apart(n, m)
    ensures Served(n + 1, m, except + Orphans(n, m))
    ensures Apart(n + 1, m)
  {
    forall j | 0 <= j < n + 1 && m[j].Hungry? && j !in except + Orphans(n, m)
      ensures HasEatingNeighbour(n + 1, m, j)
    {
      InsertionOrphansExactly(n, m, j);
    }
    forall i: nat, j: nat | Adjacent(n + 1, i, j)
      ensures !(Eats(m, i) && Eats(m, j))
    {
      assert i < n && j < n ==> Adjacent(n, i, j);
    }
  }

  /** Seat n - 1 may leave unless both its neighbours eat: seats n - 2 and 0 become
      neighbours, and nobody loses an eating neighbour. */
  lemma LeaveKeeps(n: nat, m: seq<Mood>, except: set<nat>)
    requires 0 < n <= |m| && !m[n - 1].Eating?
    requires !(Eats(m, Left(n - 1, n)) && Eats(m, Right(n - 1, n)))
    requires Apart(n, m) && Served(n, m, except)
    ensures Apart(n - 1, m) && Served(n - 1, m, except)
  {
    forall i: nat, j: nat | Adjacent(n - 1, i, j)
      ensures !(Eats(m, i) && Eats(m, j))
    {
      if !Adjacent(n, i, j) {
        assert (i == 0 && j == n - 2) || (j == 0 && i == n - 2);
      }
    }
    forall j | 0 <= j < n - 1 && m[j].Hungry? && j !in except
      ensures HasEatingNeighbour(n - 1, m, j)
    {
      var k :| Adjacent(n, j, k) && Eats(m, k);
      assert Adjacent(n - 1, j, k);
    }
  }
}
