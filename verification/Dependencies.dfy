/** Blocking dependencies: the bounded cycle guard and the three edge commands. */
module Dependencies {
  import opened Text
  import opened Graphs
  import opened TaskTables

  const VISIT_LIMIT: nat := 100000

  /** The remaining work of the guard's loop: `target` is the child being given a new
      parent, `stack` holds the nodes still to expand, last one first. */
  function Search(deps: seq<Dep>, target: Slug, visited: set<Slug>, stack: seq<Slug>, ghost universe: set<Slug>): bool
    requires forall x :: x in stack ==> x in universe
    requires Parents(DepEdges(deps)) <= universe
    decreases universe - visited, |stack|
  {
    if |stack| == 0 || |visited| >= VISIT_LIMIT then false
    else
      var cur := stack[|stack| - 1];
      var rest := stack[..|stack| - 1];
      if cur == target then true
      else if cur in visited then Search(deps, target, visited, rest, universe)
      else
        assert forall p :: p in ParentsOf(deps, cur) ==> Edge(cur, p) in DepEdges(deps);
        Search(deps, target, visited + {cur}, rest + ParentsOf(deps, cur), universe)
  }

  ghost function Universe(deps: seq<Dep>, start: Slug): set<Slug> {
    Parents(DepEdges(deps)) + {start}
  }

  predicate WouldCycleDependency(deps: seq<Dep>, child: Slug, parent: Slug) {
    child == parent || Search(deps, child, {}, [parent], Universe(deps, parent))
  }

  lemma {:induction false} SearchSound(deps: seq<Dep>, target: Slug, visited: set<Slug>, stack: seq<Slug>,
                                       universe: set<Slug>, start: Slug)
    requires forall x :: x in stack ==> x in universe
    requires Parents(DepEdges(deps)) <= universe
    requires forall x :: x in stack ==> Reaches(DepEdges(deps), start, x)
    requires Search(deps, target, visited, stack, universe)
    ensures Reaches(DepEdges(deps), start, target)
    decreases universe - visited, |stack|
  {
    var cur := stack[|stack| - 1];
    var rest := stack[..|stack| - 1];
    if cur == target {
    } else if cur in visited {
      SearchSound(deps, target, visited, rest, universe, start);
    } else {
      forall p | p in ParentsOf(deps, cur) ensures Reaches(DepEdges(deps), start, p) {
        ReachesEdge(DepEdges(deps), Edge(cur, p));
        ReachesTransitive(DepEdges(deps), start, cur, p);
      }
      SearchSound(deps, target, visited + {cur}, rest + ParentsOf(deps, cur), universe, start);
    }
  }

  /** Every expanded node has all its parents expanded or waiting on the stack. */
  ghost predicate Expanded(deps: seq<Dep>, visited: set<Slug>, stack: seq<Slug>) {
    forall e :: e in DepEdges(deps) && e.child in visited ==> e.parent in visited || e.parent in stack
  }

  lemma {:induction false} SearchComplete(deps: seq<Dep>, target: Slug, visited: set<Slug>, stack: seq<Slug>,
                                          universe: set<Slug>, start: Slug)
    requires forall x :: x in stack ==> x in universe
    requires Parents(DepEdges(deps)) <= universe
    requires Reaches(DepEdges(deps), start, target)
    requires |ReachSet(DepEdges(deps), start)| <= VISIT_LIMIT
    requires start in visited || start in stack
    requires target !in visited && Expanded(deps, visited, stack)
    requires forall x :: x in visited || x in stack ==> x in ReachSet(DepEdges(deps), start)
    ensures Search(deps, target, visited, stack, universe)
    decreases universe - visited, |stack|
  {
    var edges := DepEdges(deps);
    ReachSetComplete(edges, start);
    if |stack| == 0 {
      ClosedKeepsReachable(edges, visited, start, target);
    } else if |visited| >= VISIT_LIMIT {
      Subset(visited, ReachSet(edges, start), target);
    } else {
      var cur := stack[|stack| - 1];
      var rest := stack[..|stack| - 1];
      assert stack == rest + [cur];
      assert cur in stack;
      if cur == target {
      } else if cur in visited {
        SearchComplete(deps, target, visited, rest, universe, start);
      } else {
        forall p | p in ParentsOf(deps, cur) ensures p in ReachSet(edges, start) {
          assert Edge(cur, p) in edges;
        }
        assert Expanded(deps, visited + {cur}, rest + ParentsOf(deps, cur));
        SearchComplete(deps, target, visited + {cur}, rest + ParentsOf(deps, cur), universe, start);
      }
    }
  }

  lemma Subset(small: set<Slug>, big: set<Slug>, missing: Slug)
    requires small <= big && missing in big && missing !in small
    ensures |small| < |big|
  {
    assert small <= big - {missing};
    Cardinality(small, big - {missing});
  }

  lemma {:induction false} Cardinality<T>(small: set<T>, big: set<T>)
    requires small <= big
    ensures |small| <= |big|
    decreases small
  {
    if small != {} {
      var x :| x in small;
      Cardinality(small - {x}, big - {x});
    }
  }

  /** The guard never raises a false alarm, and it misses no cycle as long as at most
      VISIT_LIMIT tasks are reachable from the proposed parent. */
  lemma GuardExact(deps: seq<Dep>, child: Slug, parent: Slug)
    ensures WouldCycleDependency(deps, child, parent) ==> Reaches(DepEdges(deps), parent, child)
    ensures |ReachSet(DepEdges(deps), parent)| <= 100000 ==>
      (WouldCycleDependency(deps, child, parent) <==> Reaches(DepEdges(deps), parent, child))
  {
    ReachesSelf(DepEdges(deps), parent);
    if child != parent && WouldCycleDependency(deps, child, parent) {
      SearchSound(deps, child, {}, [parent], Universe(deps, parent), parent);
    }
    if |ReachSet(DepEdges(deps), parent)| <= VISIT_LIMIT && Reaches(DepEdges(deps), parent, child) {
      SearchComplete(deps, child, {}, [parent], Universe(deps, parent), parent);
    }
  }

  // ----- the bound is tight: a long enough chain defeats the guard -----

  function Name(i: nat): Slug {
    seq(i + 1, _ => 'n')
  }

  /** n rows: task i waits for task i + 1. */
  function Chain(n: nat): (r: seq<Dep>)
    ensures |r| == n
    ensures forall i :: 0 <= i < n ==> r[i] == Dep(Name(i), Name(i + 1), "")
  {
    seq(n, i requires 0 <= i => Dep(Name(i), Name(i + 1), ""))
  }

  lemma NamesDiffer(i: nat, j: nat)
    ensures Name(i) == Name(j) <==> i == j
  {
    assert |Name(i)| == i + 1 && |Name(j)| == j + 1;
  }

  lemma ChainEdges(n: nat, i: nat, p: Slug)
    ensures Edge(Name(i), p) in DepEdges(Chain(n)) <==> i < n && p == Name(i + 1)
  {
    if i < n { assert Chain(n)[i] in Chain(n); }
    if Edge(Name(i), p) in DepEdges(Chain(n)) {
      var d :| d in Chain(n) && EdgeOf(d) == Edge(Name(i), p);
      var k :| 0 <= k < n && Chain(n)[k] == d;
      NamesDiffer(i, k);
    }
  }

  lemma {:induction false} ChainReaches(n: nat, i: nat)
    requires i <= n
    ensures Reaches(DepEdges(Chain(n)), Name(i), Name(n))
    decreases n - i
  {
    ReachesSelf(DepEdges(Chain(n)), Name(n));
    if i < n {
      ChainEdges(n, i, Name(i + 1));
      ChainReaches(n, i + 1);
      ReachesPrepend(DepEdges(Chain(n)), Name(i), Name(i + 1), Name(n));
    }
  }

  ghost function FirstNames(k: nat): set<Slug> {
    set i | 0 <= i < k :: Name(i)
  }

  lemma {:induction false} FirstNamesCount(k: nat)
    ensures |FirstNames(k)| == k
  {
    if k > 0 {
      FirstNamesCount(k - 1);
      forall i | 0 <= i < k ensures Name(i) == Name(k - 1) <==> i == k - 1 { NamesDiffer(i, k - 1); }
      assert FirstNames(k) == FirstNames(k - 1) + {Name(k - 1)};
    }
  }

  lemma SearchExpandsOne(deps: seq<Dep>, target: Slug, visited: set<Slug>, cur: Slug, universe: set<Slug>)
    requires cur in universe && Parents(DepEdges(deps)) <= universe
    requires |visited| < VISIT_LIMIT && cur != target && cur !in visited
    ensures forall p :: p in ParentsOf(deps, cur) ==> p in universe
    ensures Search(deps, target, visited, [cur], universe)
         == Search(deps, target, visited + {cur}, ParentsOf(deps, cur), universe)
  {
    assert forall p :: p in ParentsOf(deps, cur) ==> Edge(cur, p) in DepEdges(deps);
    var stack := [cur];
    assert stack[..|stack| - 1] + ParentsOf(deps, cur) == ParentsOf(deps, cur);
  }

  lemma NameNotAmongFirst(k: nat)
    ensures Name(k) !in FirstNames(k)
    ensures FirstNames(k + 1) == FirstNames(k) + {Name(k)}
  {
    forall i | 0 <= i < k ensures Name(i) != Name(k) { NamesDiffer(i, k); }
  }

  lemma {:induction false} ChainSearchGivesUp(n: nat, k: nat, universe: set<Slug>)
    requires VISIT_LIMIT <= n && k <= VISIT_LIMIT
    requires Name(k) in universe
    requires Parents(DepEdges(Chain(n))) <= universe
    ensures !Search(Chain(n), Name(n), FirstNames(k), [Name(k)], universe)
    decreases VISIT_LIMIT - k
  {
    FirstNamesCount(k);
    if k < VISIT_LIMIT {
      NamesDiffer(k, n);
      NameNotAmongFirst(k);
      ChainParents(n, k);
      SearchExpandsOne(Chain(n), Name(n), FirstNames(k), Name(k), universe);
      assert Name(k + 1) in ParentsOf(Chain(n), Name(k));
      ChainSearchGivesUp(n, k + 1, universe);
    }
  }

  lemma ChainParents(n: nat, k: nat)
    requires k < n
    ensures ParentsOf(Chain(n), Name(k)) == [Name(k + 1)]
  {
    ChainSuffixParents(n, 0, k);
    assert Chain(n)[0..] == Chain(n);
  }

  lemma {:induction false} ChainSuffixParents(n: nat, from: nat, k: nat)
    requires from <= n
    ensures ParentsOf(Chain(n)[from..], Name(k)) == if from <= k < n then [Name(k + 1)] else []
    decreases n - from
  {
    if from < n {
      ChainSuffixParents(n, from + 1, k);
      NamesDiffer(from, k);
      assert Chain(n)[from..][1..] == Chain(n)[from + 1..];
      assert Chain(n)[from..][0] == Dep(Name(from), Name(from + 1), "");
    }
  }

  /** For every chain of at least VISIT_LIMIT dependencies, making its last task wait for
      its first one passes the guard and closes a cycle. */
  lemma GuardMissesLongChain(n: nat)
    requires 100000 <= n
    ensures var deps := Chain(n);
      && Acyclic(DepEdges(deps))
      && !WouldCycleDependency(deps, Name(n), Name(0))
      && !Acyclic(DepEdges(deps) + {Edge(Name(n), Name(0))})
  {
    var deps := Chain(n);
    NamesDiffer(0, n);
    assert FirstNames(0) == {};
    ChainSearchGivesUp(n, 0, Universe(deps, Name(0)));
    ChainReaches(n, 0);
    forall e | e in DepEdges(deps) && Reaches(DepEdges(deps), e.parent, e.child) ensures false {
      var d :| d in deps && EdgeOf(d) == e;
      var k :| 0 <= k < n && deps[k] == d;
      ChainStaysAbove(n, k + 1, e.child);
    }
    AddEdgeAcyclic(DepEdges(deps), Edge(Name(n), Name(0)));
  }

  lemma ChainStaysAbove(n: nat, from: nat, b: Slug)
    requires from <= n && Reaches(DepEdges(Chain(n)), Name(from), b)
    ensures exists j :: from <= j <= n && b == Name(j)
  {
    var above := set j | from <= j <= n :: Name(j);
    forall e | e in DepEdges(Chain(n)) && e.child in above ensures e.parent in above {
      var j :| from <= j <= n && e.child == Name(j);
      ChainEdges(n, j, e.parent);
    }
    ClosedKeepsReachable(DepEdges(Chain(n)), above, Name(from), b);
  }

  // ----- the commands -----

  /** AddTaskDependency. */
  function AddDependency(db: Db, childArg: Slug, parentArg: Slug, now: string): (r: (Db, Outcome))
  {
    var child, parent := Trim(childArg), Trim(parentArg);
    if child == "" || parent == "" then (db, Rejected(SlugRequired))
    else if child == parent then (db, Rejected(SelfReference))
    else if WouldCycleDependency(db.deps, child, parent) then (db, Rejected(WouldCycle))
    else if child !in db.tasks || parent !in db.tasks then (db, Rejected(ForeignKey))
    else if parent in ParentsOf(db.deps, child) then (db, Ok)
    else (db.(deps := db.deps + [Dep(child, parent, now)]), Ok)
  }

  function RemoveDependency(db: Db, childArg: Slug, parentArg: Slug): (Db, Outcome) {
    var child, parent := Trim(childArg), Trim(parentArg);
    if child == "" || parent == "" then (db, Rejected(SlugRequired))
    else (db.(deps := RowsLeft(db.deps, child, Some(parent))), Ok)
  }

  function ClearDependencies(db: Db, childArg: Slug): (Db, Outcome) {
    var child := Trim(childArg);
    if child == "" then (db, Rejected(SlugRequired))
    else (db.(deps := RowsLeft(db.deps, child, None)), Ok)
  }

  /** A successful add leaves exactly the old edges and the new one; a rejected add is due
      to one of the five causes and changes nothing. */
  lemma AddDependencyMeaning(db: Db, childArg: Slug, parentArg: Slug, now: string)
    requires Constraints(db)
    ensures var (after, outcome) := AddDependency(db, childArg, parentArg, now);
      var e := Edge(Trim(childArg), Trim(parentArg));
      && Constraints(after) && after == db.(deps := after.deps)
      && (outcome.Ok? ==> DepEdges(after.deps) == DepEdges(db.deps) + {e})
      && (outcome != Ok ==> after == db)
      && (outcome.Ok? && e in DepEdges(db.deps) ==> after == db)
  {
    var child, parent := Trim(childArg), Trim(parentArg);
    if child in db.tasks && parent in db.tasks && child != parent {
      MoreDeps(db, Dep(child, parent, now));
    }
  }

  lemma MoreDeps(db: Db, d: Dep)
    requires Constraints(db) && d.child in db.tasks && d.parent in db.tasks
    ensures var after := db.(deps := db.deps + [d]);
      && DepEdges(after.deps) == DepEdges(db.deps) + {EdgeOf(d)}
      && (EdgeOf(d) !in DepEdges(db.deps) ==> Constraints(after))
      && (EdgeOf(d) in DepEdges(db.deps) ==> DepEdges(db.deps) == DepEdges(db.deps) + {EdgeOf(d)})
  {
    AppendedEdges(db.deps, d);
  }

  lemma AppendedEdges(deps: seq<Dep>, d: Dep)
    ensures DepEdges(deps + [d]) == DepEdges(deps) + {EdgeOf(d)}
    ensures UniqueDeps(deps) && EdgeOf(d) !in DepEdges(deps) ==> UniqueDeps(deps + [d])
  {
    var grown := deps + [d];
    assert grown[|deps|] == d;
    forall x | x in deps ensures x in grown {}
    if UniqueDeps(deps) && EdgeOf(d) !in DepEdges(deps) {
      forall i | 0 <= i < |deps| ensures deps[i].child != d.child || deps[i].parent != d.parent {
        assert EdgeOf(deps[i]) in DepEdges(deps);
      }
    }
  }

  /** What adding leaves, row by row: on success the old rows in their order and, unless the pair
      was there, one new row with the two trimmed slugs and the time. It succeeds exactly when both
      slugs are given, different and in the table, and the guard sees no cycle. */
  lemma AddDependencyLeaves(db: Db, childArg: Slug, parentArg: Slug, now: string)
    ensures var (after, outcome) := AddDependency(db, childArg, parentArg, now);
      var child, parent := Trim(childArg), Trim(parentArg);
      && (outcome.Ok? <==>
            && child != "" && parent != "" && child != parent && child in db.tasks && parent in db.tasks
            && !WouldCycleDependency(db.deps, child, parent))
      && (outcome == Rejected(SlugRequired) <==> child == "" || parent == "")
      && (outcome == Rejected(SelfReference) <==> child == parent != "")
      && (outcome == Rejected(WouldCycle) <==> child != "" && parent != "" && child != parent && WouldCycleDependency(db.deps, child, parent))
      && after == db.(deps := after.deps)
      && after.deps ==
           if outcome.Ok? && !(exists d :: d in db.deps && d.child == child && d.parent == parent)
           then db.deps + [Dep(child, parent, now)] else db.deps
  {
    var child, parent := Trim(childArg), Trim(parentArg);
    if parent in ParentsOf(db.deps, child) {
      var d :| d in db.deps && EdgeOf(d) == Edge(child, parent);
    }
    if d :| d in db.deps && d.child == child && d.parent == parent {
      assert EdgeOf(d) in DepEdges(db.deps);
    }
  }

  /** What removing and clearing leave, row by row. */
  lemma RowsRemoved(db: Db, childArg: Slug, parentArg: Slug)
    ensures var (after, outcome) := RemoveDependency(db, childArg, parentArg);
      && (outcome.Ok? <==> Trim(childArg) != "" && Trim(parentArg) != "")
      && (forall d :: d in after.deps <==>
            d in db.deps && !(outcome.Ok? && d.child == Trim(childArg) && d.parent == Trim(parentArg)))
    ensures var (after, outcome) := ClearDependencies(db, childArg);
      && (outcome.Ok? <==> Trim(childArg) != "")
      && (forall d :: d in after.deps <==> d in db.deps && !(outcome.Ok? && d.child == Trim(childArg)))
  {
  }

  /** The step that decides acyclicity: with at most VISIT_LIMIT tasks in the table, adding
      a dependency succeeds exactly when it is a legal edge that closes no cycle. */
  lemma AddDependencyKeepsAcyclic(db: Db, childArg: Slug, parentArg: Slug, now: string)
    requires Constraints(db) && Acyclic(DepEdges(db.deps)) && |db.tasks| <= 100000
    ensures var (after, outcome) := AddDependency(db, childArg, parentArg, now);
      var child, parent := Trim(childArg), Trim(parentArg);
      && Acyclic(DepEdges(after.deps))
      && (outcome.Ok? <==>
           && child != "" && parent != "" && child in db.tasks && parent in db.tasks
           && Acyclic(DepEdges(db.deps) + {Edge(child, parent)}))
  {
    var child, parent := Trim(childArg), Trim(parentArg);
    var edges := DepEdges(db.deps);
    AddDependencyMeaning(db, childArg, parentArg, now);
    GuardExact(db.deps, child, parent);
    AddEdgeAcyclic(edges, Edge(child, parent));
    ReachesSelf(edges, parent);
    if parent in db.tasks {
      forall b | b in ReachSet(edges, parent) ensures b in db.tasks.Keys {
        if b in Parents(edges) {
          var e :| e in edges && e.parent == b;
          var d :| d in db.deps && EdgeOf(d) == e;
        }
      }
      Cardinality(ReachSet(edges, parent), db.tasks.Keys);
    }
  }

  /** Removing takes away exactly one edge. */
  lemma RemovalMeaning(db: Db, childArg: Slug, parentArg: Slug)
    requires Constraints(db)
    ensures var (after, outcome) := RemoveDependency(db, childArg, parentArg);
      && Constraints(after) && after == db.(deps := after.deps)
      && forall e :: e in DepEdges(after.deps) <==>
           e in DepEdges(db.deps) && !(outcome.Ok? && e == Edge(Trim(childArg), Trim(parentArg)))
  {
    var child, parent := Trim(childArg), Trim(parentArg);
    LeftEdges(db.deps, child, Some(parent));
    FewerDeps(db, RowsLeft(db.deps, child, Some(parent)));
  }

  /** Clearing takes away exactly the child's edges. */
  lemma ClearingMeaning(db: Db, childArg: Slug)
    requires Constraints(db)
    ensures var (after, outcome) := ClearDependencies(db, childArg);
      && Constraints(after) && after == db.(deps := after.deps)
      && forall e :: e in DepEdges(after.deps) <==>
           e in DepEdges(db.deps) && !(outcome.Ok? && e.child == Trim(childArg))
  {
    var child := Trim(childArg);
    LeftEdges(db.deps, child, None);
    FewerDeps(db, RowsLeft(db.deps, child, None));
  }

  lemma FewerDeps(db: Db, left: seq<Dep>)
    requires Constraints(db) && UniqueDeps(left)
    requires forall d :: d in left ==> d in db.deps
    ensures Constraints(db.(deps := left))
  {
  }

  lemma LeftEdges(deps: seq<Dep>, child: Slug, parent: Option<Slug>)
    ensures forall e :: e in DepEdges(RowsLeft(deps, child, parent)) <==>
      e in DepEdges(deps) && (e.child != child || (parent.Some? && e.parent != parent.value))
  {
    forall e | e in DepEdges(deps) && (e.child != child || (parent.Some? && e.parent != parent.value))
      ensures e in DepEdges(RowsLeft(deps, child, parent))
    {
      var d :| d in deps && EdgeOf(d) == e;
      assert d in RowsLeft(deps, child, parent);
    }
  }
}
