/**
 Finding the downloader processes that no other downloader started: the service manager walks from
 each downloader towards its ancestors in an inventory of (PID, parent) pairs.
 */
module ProcessRoots {
  import opened Bytes

  datatype Process = Process(parent: int, executable: string)

  type Inventory = map<int, Process>

  function Downloaders(inventory: Inventory, matches: string -> bool): set<nat> {
    set pid: nat | pid in inventory && pid > 0 && matches(inventory[pid].executable)
  }

  // ---- ancestry ----

  function Parent(inventory: Inventory, pid: int): Option<int> {
    if pid in inventory && inventory[pid].parent > 0 && inventory[pid].parent in inventory
    then Some(inventory[pid].parent) else None
  }

  /** The n-th ancestor; the process itself for 0. */
  function Ancestor(inventory: Inventory, pid: int, n: nat): Option<int> {
    if n == 0 then Some(pid)
    else
      var child := Ancestor(inventory, pid, n - 1);
      if child.None? then None else Parent(inventory, child.value)
  }

  predicate AncestorIn(inventory: Inventory, pids: set<nat>, pid: int, n: nat) {
    var a := Ancestor(inventory, pid, n);
    a.Some? && a.value in pids
  }

  /** Some proper ancestor is a downloader. */
  ghost predicate HasParentDownloader(inventory: Inventory, downloaders: set<nat>, pid: int) {
    exists n: nat :: n > 0 && AncestorIn(inventory, downloaders, pid, n)
  }

  predicate Onward(inventory: Inventory, downloaders: set<nat>, pid: int, n: nat) {
    && Ancestor(inventory, pid, n).Some?
    && (AncestorIn(inventory, downloaders, pid, n) ==> Ancestor(inventory, pid, n) == Some(pid))
  }

  /** Going up leads nowhere: no end, and no downloader but the one at the start. */
  ghost predicate CyclicAncestry(inventory: Inventory, downloaders: set<nat>, pid: int) {
    forall n: nat :: Onward(inventory, downloaders, pid, n)
  }

  ghost predicate AncestryEnds(inventory: Inventory, pid: int) {
    exists n: nat :: Ancestor(inventory, pid, n).None?
  }

  lemma {:induction false} AncestorOfAncestor(inventory: Inventory, pid: int, n: nat, m: nat)
    requires Ancestor(inventory, pid, n).Some?
    ensures Ancestor(inventory, pid, n + m) == Ancestor(inventory, Ancestor(inventory, pid, n).value, m)
  {
    if m > 0 { AncestorOfAncestor(inventory, pid, n, m - 1); }
  }

  lemma {:induction false} EndsForGood(inventory: Inventory, pid: int, n: nat, m: nat)
    requires Ancestor(inventory, pid, n).None? && n <= m
    ensures Ancestor(inventory, pid, m).None?
  {
    if n < m { EndsForGood(inventory, pid, n, m - 1); }
  }

  /** Once an ancestor repeats, the ancestors from then on are the ones seen already. */
  lemma {:induction false} Repeats(inventory: Inventory, pid: int, j: nat, k: nat, n: nat)
    requires j < k && forall i :: 0 <= i <= k ==> Ancestor(inventory, pid, i).Some?
    requires Ancestor(inventory, pid, j) == Ancestor(inventory, pid, k)
    ensures exists m :: 0 <= m < k && Ancestor(inventory, pid, n) == Ancestor(inventory, pid, m)
  {
    if n >= k {
      Repeats(inventory, pid, j, k, n - 1);
      var m :| 0 <= m < k && Ancestor(inventory, pid, n - 1) == Ancestor(inventory, pid, m);
      assert Ancestor(inventory, pid, n) == Ancestor(inventory, pid, m + 1);
      assert m + 1 < k || Ancestor(inventory, pid, n) == Ancestor(inventory, pid, j);
    }
  }

  // ---- one walk ----

  ghost predicate ReachedBefore(inventory: Inventory, pid: int, n: nat, v: int) {
    exists i: nat :: i < n && Ancestor(inventory, pid, i) == Some(v)
  }

  lemma ReachedAt(inventory: Inventory, pid: int, i: nat, n: nat)
    requires i < n && Ancestor(inventory, pid, i).Some?
    ensures ReachedBefore(inventory, pid, n, Ancestor(inventory, pid, i).value)
  {
  }

  lemma ReachedLater(inventory: Inventory, pid: int, n: nat, v: int)
    requires ReachedBefore(inventory, pid, n, v)
    ensures ReachedBefore(inventory, pid, n + 1, v)
  {
  }

  datatype Outcome = Root | Covered | Cyclic

  method Walk(inventory: Inventory, downloaders: set<nat>, pid: int) returns (outcome: Outcome)
    requires pid in inventory
    ensures outcome.Cyclic? <==> CyclicAncestry(inventory, downloaders, pid)
    ensures outcome.Covered? ==> HasParentDownloader(inventory, downloaders, pid)
    ensures outcome.Root? ==> AncestryEnds(inventory, pid) && !HasParentDownloader(inventory, downloaders, pid)
  {
    hide HasParentDownloader, CyclicAncestry, AncestryEnds, ReachedBefore;
    var ancestor, visited := inventory[pid].parent, {pid};
    ghost var n := 1;
    ReachedAt(inventory, pid, 0, n);
    while ancestor > 0 && ancestor in inventory
      invariant n > 0 && visited <= inventory.Keys && pid in visited
      invariant Ancestor(inventory, pid, n) == if ancestor > 0 && ancestor in inventory then Some(ancestor) else None
      invariant forall i :: 0 <= i < n ==> Ancestor(inventory, pid, i).Some?
      invariant forall v :: v in visited ==> ReachedBefore(inventory, pid, n, v)
      invariant forall i :: 0 < i < n ==> !AncestorIn(inventory, downloaders, pid, i)
      decreases inventory.Keys - visited
    {
      if ancestor in visited {
        WalkCycles(inventory, downloaders, pid, n);
        return Cyclic;
      }
      if ancestor in downloaders {
        WalkCovered(inventory, downloaders, pid, n);
        return Covered;
      }
      visited := visited + {ancestor};
      forall v | v in visited
        ensures ReachedBefore(inventory, pid, n + 1, v)
      {
        if v == ancestor { ReachedAt(inventory, pid, n, n + 1); } else { ReachedLater(inventory, pid, n, v); }
      }
      ancestor := inventory[ancestor].parent;
      n := n + 1;
    }
    WalkEnds(inventory, downloaders, pid, n);
    return Root;
  }

  lemma WalkCycles(inventory: Inventory, downloaders: set<nat>, pid: int, n: nat)
    requires n > 0 && forall i :: 0 <= i <= n ==> Ancestor(inventory, pid, i).Some?
    requires Ancestor(inventory, pid, n).Some? && ReachedBefore(inventory, pid, n, Ancestor(inventory, pid, n).value)
    requires forall i :: 0 < i < n ==> !AncestorIn(inventory, downloaders, pid, i)
    ensures CyclicAncestry(inventory, downloaders, pid)
  {
    var j :| 0 <= j < n && Ancestor(inventory, pid, j) == Ancestor(inventory, pid, n);
    forall k: nat
      ensures Onward(inventory, downloaders, pid, k)
    {
      Repeats(inventory, pid, j, n, k);
      var m :| 0 <= m < n && Ancestor(inventory, pid, k) == Ancestor(inventory, pid, m);
      assert m == 0 || !AncestorIn(inventory, downloaders, pid, m);
    }
  }

  lemma WalkCovered(inventory: Inventory, downloaders: set<nat>, pid: int, n: nat)
    requires n > 0 && AncestorIn(inventory, downloaders, pid, n) && Ancestor(inventory, pid, n) != Some(pid)
    ensures HasParentDownloader(inventory, downloaders, pid) && !CyclicAncestry(inventory, downloaders, pid)
  {
    assert !Onward(inventory, downloaders, pid, n);
  }

  lemma WalkEnds(inventory: Inventory, downloaders: set<nat>, pid: int, n: nat)
    requires Ancestor(inventory, pid, n).None? && forall i :: 0 < i < n ==> !AncestorIn(inventory, downloaders, pid, i)
    ensures AncestryEnds(inventory, pid) && !CyclicAncestry(inventory, downloaders, pid)
    ensures !HasParentDownloader(inventory, downloaders, pid)
  {
    assert !Onward(inventory, downloaders, pid, n);
    forall i: nat | i > 0
      ensures !AncestorIn(inventory, downloaders, pid, i)
    {
      if i >= n { EndsForGood(inventory, pid, n, i); }
    }
  }

  // ---- all walks ----

  predicate Increasing(s: seq<int>) {
    forall i, j :: 0 <= i < j < |s| ==> s[i] < s[j]
  }

  method SortedPids(pids: set<nat>) returns (sorted: seq<int>)
    ensures Increasing(sorted) && forall x :: x in sorted <==> x in pids
  {
    sorted := [];
    var rest := pids;
    while rest != {}
      invariant rest <= pids && Increasing(sorted)
      invariant forall x :: x in sorted <==> x in pids - rest
    {
      var pid :| pid in rest;
      sorted := InsertPid(sorted, pid);
      rest := rest - {pid};
    }
  }

  lemma Cons(first: int, rest: seq<int>)
    requires Increasing(rest) && forall x :: x in rest ==> first < x
    ensures Increasing([first] + rest) && forall x :: x in [first] + rest <==> x == first || x in rest
  {
    var whole := [first] + rest;
    assert whole[0] == first && forall i :: 0 < i < |whole| ==> whole[i] == rest[i - 1] && rest[i - 1] in rest;
  }

  lemma Uncons(s: seq<int>)
    requires Increasing(s) && s != []
    ensures Increasing(s[1..]) && forall x :: x in s[1..] ==> s[0] < x
    ensures forall x :: x in s <==> x == s[0] || x in s[1..]
  {
    assert s == [s[0]] + s[1..];
  }

  function InsertPid(sorted: seq<int>, pid: int): (r: seq<int>)
    requires Increasing(sorted) && pid !in sorted
    ensures Increasing(r) && forall x :: x in r <==> x in sorted || x == pid
  {
    if sorted == [] then [pid]
    else if pid < sorted[0] then
      Uncons(sorted);
      Cons(pid, sorted);
      [pid] + sorted
    else
      var rest := InsertPid(sorted[1..], pid);
      Uncons(sorted);
      Cons(sorted[0], rest);
      [sorted[0]] + rest
  }

  /** The order in which the processes are visited does not matter. */
  lemma {:induction false} IncreasingUnique(a: seq<int>, b: seq<int>)
    requires Increasing(a) && Increasing(b) && forall x :: x in a <==> x in b
    ensures a == b
  {
    assert a != [] ==> a[0] in a && a[0] in b;
    assert b != [] ==> b[0] in b && b[0] in a;
    if a != [] {
      Uncons(a);
      Uncons(b);
      IncreasingUnique(a[1..], b[1..]);
    }
  }

  /** What a successful search returns. */
  ghost predicate AreRoots(inventory: Inventory, downloaders: set<nat>, roots: seq<int>) {
    && Increasing(roots)
    && forall pid :: pid in roots <==> pid in downloaders && !HasParentDownloader(inventory, downloaders, pid)
  }

  method BotProcesses(inventory: Inventory, matches: string -> bool, includeWorkers: bool)
    returns (found: Result<seq<int>>)
    ensures var downloaders := Downloaders(inventory, matches);
            if includeWorkers then
              found.Ok? && Increasing(found.value) && forall pid :: pid in found.value <==> pid in downloaders
            else
              && (found.Err? <==> exists pid :: pid in downloaders && CyclicAncestry(inventory, downloaders, pid))
              && (found.Ok? ==> AreRoots(inventory, downloaders, found.value))
  {
    hide HasParentDownloader, CyclicAncestry, AncestryEnds, Downloaders;
    var downloaders := Downloaders(inventory, matches);
    Listed(inventory, matches);
    if includeWorkers {
      var all := SortedPids(downloaders);
      return Ok(all);
    }
    var roots: set<nat>, rest := {}, downloaders;
    while rest != {}
      invariant rest <= downloaders && roots <= downloaders
      invariant forall pid :: pid in downloaders - rest ==> !CyclicAncestry(inventory, downloaders, pid)
      invariant forall pid :: pid in downloaders - rest ==>
                  (pid in roots <==> !HasParentDownloader(inventory, downloaders, pid))
      invariant roots !! rest
    {
      var pid :| pid in rest;
      var outcome := Walk(inventory, downloaders, pid);
      if outcome.Cyclic? { return Err; }
      if outcome.Root? { roots := roots + {pid}; }
      rest := rest - {pid};
    }
    var sorted := SortedPids(roots);
    found := Ok(sorted);
  }

  lemma Listed(inventory: Inventory, matches: string -> bool)
    ensures Downloaders(inventory, matches) <= inventory.Keys
  {
  }

  // ---- coverage ----

  /** A root among the process and its ancestors. */
  ghost predicate CoveredBy(inventory: Inventory, roots: seq<int>, pid: int) {
    exists n: nat :: Ancestor(inventory, pid, n).Some? && Ancestor(inventory, pid, n).value in roots
  }

  /** The oldest downloader at or above step n of an ancestry that has ended by step `end`. */
  lemma {:induction false} OldestDownloader(inventory: Inventory, downloaders: set<nat>, pid: int, n: nat,
                                            end: nat) returns (k: nat)
    requires AncestorIn(inventory, downloaders, pid, n) && Ancestor(inventory, pid, end).None?
    ensures AncestorIn(inventory, downloaders, pid, k)
    ensures !HasParentDownloader(inventory, downloaders, Ancestor(inventory, pid, k).value)
    decreases end - n
  {
    if n >= end { EndsForGood(inventory, pid, end, n); }
    var a := Ancestor(inventory, pid, n).value;
    if HasParentDownloader(inventory, downloaders, a) {
      var m: nat :| m > 0 && AncestorIn(inventory, downloaders, a, m);
      AncestorOfAncestor(inventory, pid, n, m);
      k := OldestDownloader(inventory, downloaders, pid, n + m, end);
    } else {
      k := n;
    }
  }

  /** A downloader is covered by a root exactly when its ancestry ends. */
  lemma CoveredExactly(inventory: Inventory, downloaders: set<nat>, roots: seq<int>, pid: int)
    requires AreRoots(inventory, downloaders, roots) && pid in downloaders
    requires forall p :: p in downloaders ==> !CyclicAncestry(inventory, downloaders, p)
    ensures CoveredBy(inventory, roots, pid) <==> AncestryEnds(inventory, pid)
  {
    if AncestryEnds(inventory, pid) {
      var end: nat :| Ancestor(inventory, pid, end).None?;
      assert AncestorIn(inventory, downloaders, pid, 0);
      var k := OldestDownloader(inventory, downloaders, pid, 0, end);
      assert Ancestor(inventory, pid, k).value in roots;
    }
    if CoveredBy(inventory, roots, pid) {
      var n: nat :| Ancestor(inventory, pid, n).Some? && Ancestor(inventory, pid, n).value in roots;
      var root := Ancestor(inventory, pid, n).value;
      var end := RootEnds(inventory, downloaders, root);
      AncestorOfAncestor(inventory, pid, n, end);
    }
  }

  lemma RootEnds(inventory: Inventory, downloaders: set<nat>, root: int) returns (end: nat)
    requires !HasParentDownloader(inventory, downloaders, root) && !CyclicAncestry(inventory, downloaders, root)
    ensures Ancestor(inventory, root, end).None?
  {
    end :| !Onward(inventory, downloaders, root, end);
    assert end == 0 || !AncestorIn(inventory, downloaders, root, end);
  }

  ghost predicate Acyclic(inventory: Inventory) {
    forall pid, n: nat :: n > 0 ==> Ancestor(inventory, pid, n) != Some(pid)
  }

  /** With PIDs bounded by the inventory an endless ancestry must repeat one. */
  lemma EndlessRepeats(inventory: Inventory, pid: int) returns (j: nat, k: nat)
    requires pid in inventory && !AncestryEnds(inventory, pid)
    ensures j < k && Ancestor(inventory, pid, j).Some? && Ancestor(inventory, pid, j) == Ancestor(inventory, pid, k)
  {
    var seen: set<int> := {};
    k := 0;
    while true
      invariant seen <= inventory.Keys
      invariant forall v :: v in seen ==> exists i :: 0 <= i < k && Ancestor(inventory, pid, i) == Some(v)
      decreases inventory.Keys - seen
    {
      InInventory(inventory, pid, k);
      var v := Ancestor(inventory, pid, k).value;
      if v in seen {
        j :| 0 <= j < k && Ancestor(inventory, pid, j) == Some(v);
        return;
      }
      seen := seen + {v};
      assert v in seen;
      k := k + 1;
    }
  }

  lemma InInventory(inventory: Inventory, pid: int, n: nat)
    requires pid in inventory && !AncestryEnds(inventory, pid)
    ensures Ancestor(inventory, pid, n).Some? && Ancestor(inventory, pid, n).value in inventory
  {
    assert Ancestor(inventory, pid, n).Some? && Ancestor(inventory, pid, n + 1).Some?;
  }

  lemma AcyclicEnds(inventory: Inventory, pid: int)
    requires Acyclic(inventory) && pid in inventory
    ensures AncestryEnds(inventory, pid)
  {
    if !AncestryEnds(inventory, pid) {
      var j, k := EndlessRepeats(inventory, pid);
      AncestorOfAncestor(inventory, pid, j, k - j);
    }
  }

  lemma EndingIsNotCyclic(inventory: Inventory, downloaders: set<nat>, pid: int)
    requires AncestryEnds(inventory, pid)
    ensures !CyclicAncestry(inventory, downloaders, pid)
  {
    var n: nat :| Ancestor(inventory, pid, n).None?;
    assert !Onward(inventory, downloaders, pid, n);
  }

  /** Without cycles the search never fails and every downloader is, or descends from, a root. */
  lemma AcyclicIsCovered(inventory: Inventory, matches: string -> bool, roots: seq<int>, pid: int)
    requires Acyclic(inventory) && pid in Downloaders(inventory, matches)
    ensures !CyclicAncestry(inventory, Downloaders(inventory, matches), pid)
    ensures AreRoots(inventory, Downloaders(inventory, matches), roots) ==> CoveredBy(inventory, roots, pid)
  {
    hide HasParentDownloader, CoveredBy, AreRoots;
    var downloaders := Downloaders(inventory, matches);
    forall p | p in downloaders
      ensures !CyclicAncestry(inventory, downloaders, p) && AncestryEnds(inventory, p)
    {
      AcyclicEnds(inventory, p);
      EndingIsNotCyclic(inventory, downloaders, p);
    }
    if AreRoots(inventory, downloaders, roots) { CoveredExactly(inventory, downloaders, roots, pid); }
  }

  /** Two downloaders that are each other's parent: no error, and no root for either. */
  lemma MutualParentsHaveNoRoot(matches: string -> bool)
    requires matches("bot")
    ensures var inventory := map[1 := Process(2, "bot"), 2 := Process(1, "bot")];
            var downloaders := Downloaders(inventory, matches);
            && downloaders == {1, 2} && AreRoots(inventory, downloaders, [])
            && forall pid :: pid in downloaders ==> !CyclicAncestry(inventory, downloaders, pid)
  {
    var inventory := map[1 := Process(2, "bot"), 2 := Process(1, "bot")];
    var downloaders := Downloaders(inventory, matches);
    assert downloaders == {1, 2};
    assert Ancestor(inventory, 1, 0) == Some(1) && Ancestor(inventory, 2, 0) == Some(2);
    assert !Onward(inventory, downloaders, 1, 1) && !Onward(inventory, downloaders, 2, 1);
    assert AncestorIn(inventory, downloaders, 1, 1) && Ancestor(inventory, 1, 1) == Some(2);
    assert AncestorIn(inventory, downloaders, 2, 1) && Ancestor(inventory, 2, 1) == Some(1);
  }
}
