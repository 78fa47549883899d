/** The single-parent subtask hierarchy: its depth-bounded cycle guard, the upward walk to a
    family's root, and the recursive family query. */
module Hierarchy {
  import opened Text
  import opened Graphs
  import opened TaskTables
  import Dependencies

  const HOP_LIMIT: nat := 1000

  ghost predicate Forest(tasks: map<Slug, Task>) {
    Acyclic(TreeEdges(tasks))
  }

  ghost predicate ParentsKnown(tasks: map<Slug, Task>) {
    forall s :: s in tasks && tasks[s].parent.Some? ==> tasks[s].parent.value in tasks
  }

  /** The task n hops above s, if the chain is that long. */
  function Ancestor(tasks: map<Slug, Task>, s: Slug, n: nat): Option<Slug>
    decreases n
  {
    if n == 0 then Some(s)
    else if s == "" || s !in tasks || tasks[s].parent.None? then None
    else Ancestor(tasks, tasks[s].parent.value, n - 1)
  }

  /** The remaining iterations of wouldCycleHierarchy's loop. */
  predicate GuardWalk(tasks: map<Slug, Task>, child: Slug, cur: Slug, i: nat)
    decreases HOP_LIMIT - i
  {
    if i >= HOP_LIMIT || cur == "" then false
    else if cur == child then true
    else if cur !in tasks || tasks[cur].parent.None? then false
    else GuardWalk(tasks, child, tasks[cur].parent.value, i + 1)
  }

  predicate WouldCycleHierarchy(tasks: map<Slug, Task>, child: Slug, parent: Slug) {
    child == parent || GuardWalk(tasks, child, parent, 0)
  }

  /** One of the first k tasks of s's chain (s itself being the first) is a. */
  ghost predicate Within(tasks: map<Slug, Task>, s: Slug, k: int, a: Slug) {
    exists n: nat :: n < k && Ancestor(tasks, s, n) == Some(a)
  }

  lemma WithinUnfolds(tasks: map<Slug, Task>, s: Slug, k: int, a: Slug)
    requires k > 0 && s != "" && s in tasks && tasks[s].parent.Some?
    ensures Within(tasks, s, k, a) <==> s == a || Within(tasks, tasks[s].parent.value, k - 1, a)
  {
    var up := tasks[s].parent.value;
    assert Ancestor(tasks, s, 0) == Some(s);
    if n: nat :| n < k - 1 && Ancestor(tasks, up, n) == Some(a) {
      assert Ancestor(tasks, s, n + 1) == Some(a);
    }
    if n: nat :| n < k && Ancestor(tasks, s, n) == Some(a) {
      assert n == 0 || Ancestor(tasks, up, n - 1) == Some(a);
    }
  }

  lemma {:induction false} GuardWalkExact(tasks: map<Slug, Task>, child: Slug, cur: Slug, i: nat)
    requires child != "" && i <= HOP_LIMIT
    ensures GuardWalk(tasks, child, cur, i) <==> Within(tasks, cur, HOP_LIMIT - i, child)
    decreases HOP_LIMIT - i
  {
    if i < HOP_LIMIT {
      assert Ancestor(tasks, cur, 0) == Some(cur);
      if cur != "" && cur in tasks && tasks[cur].parent.Some? {
        WithinUnfolds(tasks, cur, HOP_LIMIT - i, child);
        GuardWalkExact(tasks, child, tasks[cur].parent.value, i + 1);
      }
    }
  }

  /** The guard sees exactly the first HOP_LIMIT tasks of the parent's ancestor chain. */
  lemma GuardExact(tasks: map<Slug, Task>, child: Slug, parent: Slug)
    requires child != ""
    ensures WouldCycleHierarchy(tasks, child, parent) <==> Within(tasks, parent, HOP_LIMIT, child)
  {
    GuardWalkExact(tasks, child, parent, 0);
    assert Ancestor(tasks, parent, 0) == Some(parent);
  }

  lemma {:induction false} AncestorReached(tasks: map<Slug, Task>, s: Slug, n: nat, a: Slug)
    requires Ancestor(tasks, s, n) == Some(a)
    ensures Reaches(TreeEdges(tasks), s, a)
    decreases n
  {
    if n == 0 {
      ReachesSelf(TreeEdges(tasks), s);
    } else {
      var up := tasks[s].parent.value;
      AncestorReached(tasks, up, n - 1, a);
      assert Edge(s, up) in TreeEdges(tasks);
      ReachesPrepend(TreeEdges(tasks), s, up, a);
    }
  }

  lemma {:induction false} PathIsAncestry(tasks: map<Slug, Task>, p: seq<Slug>)
    requires IsPath(TreeEdges(tasks), p) && "" !in tasks
    ensures Ancestor(tasks, p[0], |p| - 1) == Some(p[|p| - 1])
    decreases |p|
  {
    if |p| > 1 {
      var q := p[1..];
      forall i | 0 < i < |q| ensures Edge(q[i - 1], q[i]) in TreeEdges(tasks) {
        assert Edge(p[i], p[i + 1]) in TreeEdges(tasks);
      }
      PathIsAncestry(tasks, q);
      assert Edge(p[0], p[1]) in TreeEdges(tasks);
    }
  }

  /** Reaching upward is having as an ancestor. */
  lemma ReachesIsAncestry(tasks: map<Slug, Task>, s: Slug, a: Slug)
    requires "" !in tasks
    ensures Reaches(TreeEdges(tasks), s, a) <==> exists n: nat :: Ancestor(tasks, s, n) == Some(a)
  {
    if Reaches(TreeEdges(tasks), s, a) {
      var p :| IsPath(TreeEdges(tasks), p) && p[0] == s && p[|p| - 1] == a;
      PathIsAncestry(tasks, p);
    }
    if n: nat :| Ancestor(tasks, s, n) == Some(a) {
      AncestorReached(tasks, s, n, a);
    }
  }

  // ----- the commands -----

  /** SetTaskHierarchyParent. */
  function SetParent(db: Db, childArg: Slug, parentArg: Slug, now: string): (Db, Outcome) {
    var child, parent := Trim(childArg), Trim(parentArg);
    if child == "" || parent == "" then (db, Rejected(SlugRequired))
    else if child == parent then (db, Rejected(SelfReference))
    else if parent !in db.tasks then (db, Rejected(ParentNotFound))
    else if WouldCycleHierarchy(db.tasks, child, parent) then (db, Rejected(WouldCycle))
    else if child !in db.tasks then (db, Ok)
    else (WithParent(db, child, Some(parent), now), Ok)
  }

  function WithParent(db: Db, child: Slug, parent: Option<Slug>, now: string): Db
    requires child in db.tasks
  {
    db.(tasks := db.tasks[child := db.tasks[child].(parent := parent, updatedAt := now)])
  }

  /** ClearTaskHierarchyParent. */
  function ClearParent(db: Db, childArg: Slug, now: string): (Db, Outcome) {
    var child := Trim(childArg);
    if child == "" then (db, Rejected(SlugRequired))
    else if child !in db.tasks then (db, Ok)
    else (WithParent(db, child, None, now), Ok)
  }

  /** The tree edges with the child's own edge taken out. */
  ghost function OthersEdges(tasks: map<Slug, Task>, child: Slug): set<Edge> {
    set e | e in TreeEdges(tasks) && e.child != child
  }

  lemma WithParentEdges(db: Db, child: Slug, parent: Option<Slug>, now: string)
    requires child in db.tasks
    ensures TreeEdges(WithParent(db, child, parent, now).tasks) ==
      OthersEdges(db.tasks, child) + (if parent.Some? then {Edge(child, parent.value)} else {})
  {
    var after := WithParent(db, child, parent, now).tasks;
    forall e ensures e in TreeEdges(after) <==>
      e in OthersEdges(db.tasks, child) || (parent.Some? && e == Edge(child, parent.value))
    {
      TreeEdgeIs(after, e);
      TreeEdgeIs(db.tasks, e);
    }
  }

  lemma {:induction false} AncestryAvoiding(tasks: map<Slug, Task>, s: Slug, n: nat, child: Slug)
    requires Ancestor(tasks, s, n) == Some(child)
    ensures Reaches(OthersEdges(tasks, child), s, child)
    decreases n
  {
    ReachesSelf(OthersEdges(tasks, child), child);
    if n > 0 && s != child {
      var up := tasks[s].parent.value;
      AncestryAvoiding(tasks, up, n - 1, child);
      assert Edge(s, up) in TreeEdges(tasks);
      ReachesPrepend(OthersEdges(tasks, child), s, up, child);
    }
  }

  /** The step that decides forestness, on every forest: an accepted new parent keeps the
      hierarchy a forest if and only if the child does not sit HOP_LIMIT or more hops up the
      new parent's own chain. */
  lemma SetParentForestExact(db: Db, childArg: Slug, parentArg: Slug, now: string)
    requires ForeignKeys(db) && Forest(db.tasks) && "" !in db.tasks
    ensures var (after, outcome) := SetParent(db, childArg, parentArg, now);
      var child, parent := Trim(childArg), Trim(parentArg);
      && (outcome != Ok ==> after == db)
      && (outcome.Ok? ==>
           (Forest(after.tasks) <==>
             !exists n: nat :: n >= HOP_LIMIT && Ancestor(db.tasks, parent, n) == Some(child)))
  {
    var (after, outcome) := SetParent(db, childArg, parentArg, now);
    var child, parent := Trim(childArg), Trim(parentArg);
    if outcome.Ok? {
      var others := OthersEdges(db.tasks, child);
      GuardExact(db.tasks, child, parent);
      if child in db.tasks {
        WithParentEdges(db, child, Some(parent), now);
        SubgraphAcyclic(others, TreeEdges(db.tasks));
        AddEdgeAcyclic(others, Edge(child, parent));
        if Reaches(others, parent, child) {
          ReachesMonotone(others, TreeEdges(db.tasks), parent, child);
          ReachesIsAncestry(db.tasks, parent, child);
        }
        if n: nat :| Ancestor(db.tasks, parent, n) == Some(child) {
          AncestryAvoiding(db.tasks, parent, n, child);
        }
      } else {
        forall n: nat ensures Ancestor(db.tasks, parent, n) != Some(child) {
          if Ancestor(db.tasks, parent, n).Some? { AncestorKnown(db, parent, n); }
        }
      }
    }
  }

  lemma {:induction false} AncestorKnown(db: Db, s: Slug, n: nat)
    requires ForeignKeys(db) && s in db.tasks && Ancestor(db.tasks, s, n).Some?
    ensures Ancestor(db.tasks, s, n).value in db.tasks
    decreases n
  {
    if n > 0 { AncestorKnown(db, db.tasks[s].parent.value, n - 1); }
  }

  lemma ClearParentMeaning(db: Db, childArg: Slug, now: string)
    requires Forest(db.tasks)
    ensures var (after, outcome) := ClearParent(db, childArg, now);
      && Forest(after.tasks)
      && forall e :: e in TreeEdges(after.tasks) <==>
           e in TreeEdges(db.tasks) && !(outcome.Ok? && e.child == Trim(childArg))
  {
    var child := Trim(childArg);
    SubgraphAcyclic(OthersEdges(db.tasks, child), TreeEdges(db.tasks));
    if child in db.tasks { WithParentEdges(db, child, None, now); }
  }

  /** The task's row with a new parent and time stamp; everything else of it stays. */
  predicate Reparented(before: Task, after: Task, parent: Option<Slug>, now: string) {
    after.parent == parent && after.updatedAt == now
    && after.status == before.status && after.waitingOn == before.waitingOn
    && after.forkedFrom == before.forkedFrom && after.deleted == before.deleted
  }

  /** What setting a parent leaves: on success the child's parent is exactly the given one, so the
      tree edges are the old ones that do not leave the child and that one; every other row and
      table, and every other column of the child but the time stamp, stays. A child that is not in
      the table changes nothing, and neither does a call that is rejected. It succeeds exactly when
      both slugs are given and different, the parent exists, and the child is not among the first
      1000 tasks of the parent's chain. */
  lemma SetParentMeaning(db: Db, childArg: Slug, parentArg: Slug, now: string)
    ensures var (after, outcome) := SetParent(db, childArg, parentArg, now);
      var child, parent := Trim(childArg), Trim(parentArg);
      && (outcome.Ok? <==>
            && child != "" && parent != "" && child != parent && parent in db.tasks
            && !Within(db.tasks, parent, 1000, child))
      && (outcome == Rejected(SlugRequired) <==> child == "" || parent == "")
      && (outcome == Rejected(SelfReference) <==> child == parent != "")
      && (outcome == Rejected(ParentNotFound) <==> child != "" && parent != "" && child != parent && parent !in db.tasks)
      && after == db.(tasks := after.tasks) && after.tasks.Keys == db.tasks.Keys
      && (forall s :: s in db.tasks && s != child ==> after.tasks[s] == db.tasks[s])
      && (child in db.tasks ==>
            if outcome.Ok? then Reparented(db.tasks[child], after.tasks[child], Some(parent), now)
            else after.tasks[child] == db.tasks[child])
      && (outcome.Ok? && child in db.tasks ==>
            forall e :: e in TreeEdges(after.tasks) <==>
              e == Edge(child, parent) || (e in TreeEdges(db.tasks) && e.child != child))
  {
    var child, parent := Trim(childArg), Trim(parentArg);
    var (after, outcome) := SetParent(db, childArg, parentArg, now);
    if child != "" { GuardExact(db.tasks, child, parent); }
    if outcome.Ok? && child in db.tasks {
      forall e ensures e in TreeEdges(after.tasks) <==> e == Edge(child, parent) || (e in TreeEdges(db.tasks) && e.child != child) {
        TreeEdgeIs(after.tasks, e);
        TreeEdgeIs(db.tasks, e);
      }
    }
  }

  /** What clearing leaves: the child has no parent, and everything else but its time stamp stays.
      It succeeds exactly when a slug is given. */
  lemma ClearParentLeaves(db: Db, childArg: Slug, now: string)
    ensures var (after, outcome) := ClearParent(db, childArg, now);
      var child := Trim(childArg);
      && (outcome.Ok? <==> child != "")
      && after == db.(tasks := after.tasks) && after.tasks.Keys == db.tasks.Keys
      && (forall s :: s in db.tasks && s != child ==> after.tasks[s] == db.tasks[s])
      && (child in db.tasks ==>
            if outcome.Ok? then Reparented(db.tasks[child], after.tasks[child], None, now)
            else after.tasks[child] == db.tasks[child])
  {
  }

  // ----- how long a chain can get -----

  ghost function Chain(tasks: map<Slug, Task>, s: Slug, n: nat): set<Slug> {
    set i: nat | i < n && Ancestor(tasks, s, i).Some? :: Ancestor(tasks, s, i).value
  }

  lemma {:induction false} AncestorPlus(tasks: map<Slug, Task>, s: Slug, m: nat, n: nat)
    requires Ancestor(tasks, s, m).Some?
    ensures Ancestor(tasks, s, m + n) == Ancestor(tasks, Ancestor(tasks, s, m).value, n)
    decreases m
  {
    if m > 0 { AncestorPlus(tasks, tasks[s].parent.value, m - 1, n); }
  }

  lemma {:induction false} AncestorPrefix(tasks: map<Slug, Task>, s: Slug, m: nat, n: nat)
    requires m <= n && Ancestor(tasks, s, n).Some?
    ensures Ancestor(tasks, s, m).Some?
    decreases m
  {
    if m > 0 { AncestorPrefix(tasks, tasks[s].parent.value, m - 1, n - 1); }
  }

  lemma NoRepeat(tasks: map<Slug, Task>, s: Slug, i: nat, j: nat)
    requires Forest(tasks) && "" !in tasks && i < j && Ancestor(tasks, s, j).Some?
    ensures Ancestor(tasks, s, i).Some? && Ancestor(tasks, s, i) != Ancestor(tasks, s, j)
  {
    AncestorPrefix(tasks, s, i, j);
    AncestorPrefix(tasks, s, i + 1, j);
    var a := Ancestor(tasks, s, i).value;
    AncestorPlus(tasks, s, i, 1);
    var up := Ancestor(tasks, s, i + 1).value;
    assert tasks[a].parent == Some(up) by { assert Ancestor(tasks, a, 1) == Some(up); }
    assert Edge(a, up) in TreeEdges(tasks);
    AncestorPlus(tasks, s, i + 1, j - i - 1);
    AncestorReached(tasks, up, j - i - 1, Ancestor(tasks, s, j).value);
  }

  lemma {:induction false} ChainCount(tasks: map<Slug, Task>, s: Slug, n: nat)
    requires Forest(tasks) && "" !in tasks && Ancestor(tasks, s, n).Some?
    ensures |Chain(tasks, s, n + 1)| == n + 1
  {
    var last := Ancestor(tasks, s, n).value;
    if n > 0 {
      AncestorPrefix(tasks, s, n - 1, n);
      ChainCount(tasks, s, n - 1);
      forall i: nat | i < n ensures Ancestor(tasks, s, i) != Some(last) { NoRepeat(tasks, s, i, n); }
      assert Chain(tasks, s, n + 1) == Chain(tasks, s, n) + {last};
    } else {
      assert Chain(tasks, s, 1) == {s};
    }
  }

  /** A forest of known parents has no chain longer than its table. */
  lemma ChainShorterThanTable(db: Db, s: Slug, n: nat)
    requires ForeignKeys(db) && Forest(db.tasks) && "" !in db.tasks && s in db.tasks
    requires Ancestor(db.tasks, s, n).Some?
    ensures n < |db.tasks|
  {
    ChainCount(db.tasks, s, n);
    forall a | a in Chain(db.tasks, s, n + 1) ensures a in db.tasks.Keys {
      var i: nat :| i < n + 1 && Ancestor(db.tasks, s, i) == Some(a);
      AncestorKnown(db, s, i);
    }
    Dependencies.Cardinality(Chain(db.tasks, s, n + 1), db.tasks.Keys);
  }

  /** With at most HOP_LIMIT tasks in the table the guard is exact: setting a parent
      succeeds precisely when the result is still a forest. */
  lemma SetParentKeepsForest(db: Db, childArg: Slug, parentArg: Slug, now: string)
    requires ForeignKeys(db) && Forest(db.tasks) && "" !in db.tasks && |db.tasks| <= HOP_LIMIT
    ensures Forest(SetParent(db, childArg, parentArg, now).0.tasks)
    ensures var child, parent := Trim(childArg), Trim(parentArg);
      child in db.tasks && parent in db.tasks ==>
        (SetParent(db, childArg, parentArg, now).1.Ok? <==> Forest(WithParent(db, child, Some(parent), now).tasks))
  {
    var child, parent := Trim(childArg), Trim(parentArg);
    SetParentForestExact(db, childArg, parentArg, now);
    if parent in db.tasks {
      forall n: nat | n >= HOP_LIMIT ensures Ancestor(db.tasks, parent, n) != Some(child) {
        if Ancestor(db.tasks, parent, n) == Some(child) { ChainShorterThanTable(db, parent, n); }
      }
      if child in db.tasks && WouldCycleHierarchy(db.tasks, child, parent) {
        GuardExact(db.tasks, child, parent);
        var n: nat :| n < HOP_LIMIT && Ancestor(db.tasks, parent, n) == Some(child);
        AncestryAvoiding(db.tasks, parent, n, child);
        WithParentEdges(db, child, Some(parent), now);
        var after := TreeEdges(WithParent(db, child, Some(parent), now).tasks);
        ReachesMonotone(OthersEdges(db.tasks, child), after, parent, child);
        assert Edge(child, parent) in after;
      }
    }
  }
}
