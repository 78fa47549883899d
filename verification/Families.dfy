/** Task families: the upward walk that names a task's family and the downward recursive
    query that lists a family's members. */
module Families {
  import opened Text
  import opened Graphs
  import opened TaskTables
  import opened Hierarchy
  import Dependencies

  datatype FamilyRoot = Root(slug: Slug) | NotFound | CycleAt(slug: Slug) | SlugMissing

  /** The remaining iterations of TaskFamilyRoot's loop. */
  function Walk(tasks: map<Slug, Task>, current: Slug, seen: set<Slug>, first: bool): FamilyRoot
    decreases tasks.Keys - seen
  {
    if current in seen then CycleAt(current)
    else if current !in tasks then (if first then NotFound else Root(current))
    else
      match tasks[current].parent
      case None => Root(current)
      case Some(parent) =>
        if Trim(parent) == "" then Root(current)
        else Walk(tasks, Trim(parent), seen + {current}, false)
  }

  function TaskFamilyRoot(tasks: map<Slug, Task>, slugArg: Slug): FamilyRoot {
    var slug := Trim(slugArg);
    if slug == "" then SlugMissing else Walk(tasks, slug, {}, true)
  }

  /** The recursive part of the family query: add the children of what is there until
      nothing new appears. */
  function Grow(tasks: map<Slug, Task>, family: set<Slug>): (r: set<Slug>)
    requires family <= tasks.Keys
    ensures family <= r <= tasks.Keys
    ensures forall t :: t in tasks && tasks[t].parent.Some? && tasks[t].parent.value in r ==> t in r
    decreases tasks.Keys - family
  {
    var next := family + set t | t in tasks && tasks[t].parent.Some? && tasks[t].parent.value in family;
    if next == family then
      assert forall t :: t in tasks && tasks[t].parent.Some? && tasks[t].parent.value in family ==> t in next;
      family
    else Grow(tasks, next)
  }

  /** listTaskFamily, without its ordering. */
  function Family(tasks: map<Slug, Task>, root: Slug): set<Slug> {
    Grow(tasks, if root in tasks then {root} else {})
  }

  lemma {:induction false} GrowSound(tasks: map<Slug, Task>, family: set<Slug>, root: Slug)
    requires family <= tasks.Keys
    requires forall t :: t in family ==> Reaches(TreeEdges(tasks), t, root)
    ensures forall t :: t in Grow(tasks, family) ==> Reaches(TreeEdges(tasks), t, root)
    decreases tasks.Keys - family
  {
    var next := family + set t | t in tasks && tasks[t].parent.Some? && tasks[t].parent.value in family;
    if next != family {
      forall t | t in next ensures Reaches(TreeEdges(tasks), t, root) {
        if t !in family {
          assert Edge(t, tasks[t].parent.value) in TreeEdges(tasks);
          ReachesPrepend(TreeEdges(tasks), t, tasks[t].parent.value, root);
        }
      }
      GrowSound(tasks, next, root);
    }
  }

  lemma {:induction false} PathDescends(tasks: map<Slug, Task>, p: seq<Slug>, family: set<Slug>)
    requires IsPath(TreeEdges(tasks), p) && p[|p| - 1] in family
    requires forall t :: t in tasks && tasks[t].parent.Some? && tasks[t].parent.value in family ==> t in family
    ensures p[0] in family
    decreases |p|
  {
    if |p| > 1 {
      var q := p[1..];
      forall i | 0 < i < |q| ensures Edge(q[i - 1], q[i]) in TreeEdges(tasks) {
        assert Edge(p[i], p[i + 1]) in TreeEdges(tasks);
      }
      PathDescends(tasks, q, family);
      assert Edge(p[0], p[1]) in TreeEdges(tasks);
    }
  }

  /** The query returns exactly the descendants of its root, itself included, on every
      hierarchy: cyclic or with missing parents too. */
  lemma FamilyIsDescendants(tasks: map<Slug, Task>, root: Slug)
    ensures forall t :: t in Family(tasks, root) <==>
      root in tasks && t in tasks && Reaches(TreeEdges(tasks), t, root)
  {
    var start := if root in tasks then {root} else {};
    ReachesSelf(TreeEdges(tasks), root);
    GrowSound(tasks, start, root);
    forall t | root in tasks && t in tasks && Reaches(TreeEdges(tasks), t, root)
      ensures t in Family(tasks, root)
    {
      var p :| IsPath(TreeEdges(tasks), p) && p[0] == t && p[|p| - 1] == root;
      PathDescends(tasks, p, Family(tasks, root));
    }
    if root !in tasks { EmptyGrows(tasks); }
  }

  lemma EmptyGrows(tasks: map<Slug, Task>)
    ensures Grow(tasks, {}) == {}
  {
    assert (set t | t in tasks && tasks[t].parent.Some? && tasks[t].parent.value in {}) == {};
  }

  predicate Legal(slug: Slug) {
    slug != "" && Trimmed(slug)
  }

  ghost predicate LegalSlugs(tasks: map<Slug, Task>) {
    forall s :: s in tasks ==> Legal(s) && (tasks[s].parent.Some? ==> Legal(tasks[s].parent.value))
  }

  /** Nothing above: parentless, or not a task at all. */
  predicate Top(tasks: map<Slug, Task>, s: Slug) {
    s !in tasks || tasks[s].parent.None?
  }

  lemma ParentNotBelow(tasks: map<Slug, Task>, s: Slug)
    requires Forest(tasks) && s in tasks && tasks[s].parent.Some?
    ensures !Reaches(TreeEdges(tasks), tasks[s].parent.value, s)
  {
    assert Edge(s, tasks[s].parent.value) in TreeEdges(tasks);
  }

  lemma {:induction false} WalkFindsTop(tasks: map<Slug, Task>, current: Slug, seen: set<Slug>, first: bool)
    returns (top: Slug)
    requires Forest(tasks) && LegalSlugs(tasks)
    requires first ==> current in tasks
    requires forall x :: x in seen ==>
      x in tasks && tasks[x].parent.Some? && Reaches(TreeEdges(tasks), tasks[x].parent.value, current)
    ensures Walk(tasks, current, seen, first) == Root(top)
    ensures Top(tasks, top) && Reaches(TreeEdges(tasks), current, top)
    decreases tasks.Keys - seen
  {
    ReachesSelf(TreeEdges(tasks), current);
    top := current;
    if current in tasks && tasks[current].parent.Some? { ParentNotBelow(tasks, current); }
    if current in seen {
      assert false;
    } else if current in tasks && tasks[current].parent.Some? {
      var parent := tasks[current].parent.value;
      TrimFixesTrimmed(parent);
      ReachesSelf(TreeEdges(tasks), parent);
      assert Edge(current, parent) in TreeEdges(tasks);
      ReachesEdge(TreeEdges(tasks), Edge(current, parent));
      forall x | x in seen + {current} ensures Reaches(TreeEdges(tasks), tasks[x].parent.value, parent) {
        if x != current { ReachesTransitive(TreeEdges(tasks), tasks[x].parent.value, current, parent); }
      }
      top := WalkFindsTop(tasks, parent, seen + {current}, false);
      ReachesTransitive(TreeEdges(tasks), current, parent, top);
    }
  }

  lemma {:induction false} TopUnique(tasks: map<Slug, Task>, p: seq<Slug>, top: Slug)
    requires IsPath(TreeEdges(tasks), p) && Top(tasks, p[|p| - 1])
    requires Top(tasks, top) && Reaches(TreeEdges(tasks), p[0], top)
    ensures p[|p| - 1] == top
    decreases |p|
  {
    if |p| > 1 { assert Edge(p[0], p[1]) in TreeEdges(tasks); }
    if p[0] != top {
      var up := ReachesFirst(TreeEdges(tasks), p[0], top);
      var q := p[1..];
      forall i | 0 < i < |q| ensures Edge(q[i - 1], q[i]) in TreeEdges(tasks) {
        assert Edge(p[i], p[i + 1]) in TreeEdges(tasks);
      }
      TopUnique(tasks, q, top);
    }
  }

  /** On every forest with trimmed slugs, whether or not its parents exist: the walk reports
      the one top its chain ends at, never a cycle. */
  lemma FamilyRootIsTop(tasks: map<Slug, Task>, s: Slug) returns (top: Slug)
    requires Forest(tasks) && LegalSlugs(tasks) && s in tasks
    ensures TaskFamilyRoot(tasks, s) == Root(top)
    ensures Top(tasks, top)
    ensures forall r :: Top(tasks, r) ==> (Reaches(TreeEdges(tasks), s, r) <==> r == top)
  {
    TrimFixesTrimmed(s);
    top := WalkFindsTop(tasks, s, {}, true);
    forall r | Top(tasks, r) && Reaches(TreeEdges(tasks), s, r) ensures r == top {
      var p :| IsPath(TreeEdges(tasks), p) && p[0] == s && p[|p| - 1] == r;
      TopUnique(tasks, p, top);
    }
  }

  /** The walk up and the query down agree at s: the reported root is the one parentless
      task whose listed family contains s. */
  ghost predicate AgreeAt(tasks: map<Slug, Task>, s: Slug) {
    exists root :: root in tasks && TaskFamilyRoot(tasks, s) == Root(root) && tasks[root].parent.None?
      && forall r :: r in tasks && tasks[r].parent.None? ==> (s in Family(tasks, r) <==> r == root)
  }

  /** Families partition the tasks, and a task shares its parent's family. */
  ghost predicate FamiliesAgree(tasks: map<Slug, Task>) {
    && (forall s :: s in tasks ==> AgreeAt(tasks, s))
    && (forall s :: s in tasks && tasks[s].parent.Some? ==>
          TaskFamilyRoot(tasks, s) == TaskFamilyRoot(tasks, tasks[s].parent.value))
  }

  lemma LegalFamiliesAgree(tasks: map<Slug, Task>)
    requires Forest(tasks) && ParentsKnown(tasks) && LegalSlugs(tasks)
    ensures FamiliesAgree(tasks)
  {
    forall s | s in tasks
      ensures AgreeAt(tasks, s)
      ensures tasks[s].parent.Some? ==> TaskFamilyRoot(tasks, s) == TaskFamilyRoot(tasks, tasks[s].parent.value)
    {
      var top := FamilyRootIsTop(tasks, s);
      KnownStaysKnown(tasks, s, top);
      forall r | r in tasks && tasks[r].parent.None? ensures s in Family(tasks, r) <==> r == top {
        FamilyIsDescendants(tasks, r);
      }
      assert AgreeAt(tasks, s);
      if tasks[s].parent.Some? {
        var parent := tasks[s].parent.value;
        var above := FamilyRootIsTop(tasks, parent);
        assert Edge(s, parent) in TreeEdges(tasks);
        ReachesPrepend(TreeEdges(tasks), s, parent, above);
      }
    }
  }

  lemma KnownStaysKnown(tasks: map<Slug, Task>, s: Slug, a: Slug)
    requires ParentsKnown(tasks) && s in tasks && Reaches(TreeEdges(tasks), s, a)
    ensures a in tasks
  {
    assert Closed(TreeEdges(tasks), tasks.Keys);
    ClosedKeepsReachable(TreeEdges(tasks), tasks.Keys, s, a);
  }

  function Flat(slugs: set<Slug>): map<Slug, Task> {
    map s | s in slugs :: Task(Backlog, None, None, None, false, "")
  }

  /** Exactly which slugs make the two readings agree on every hierarchy over them: the
      trimmed, non-empty ones.  `--slug` values are checked after trimming but stored
      untrimmed, so the other kind can occur. */
  lemma FamiliesAgreeExactly(slugs: set<Slug>)
    ensures (forall tasks: map<Slug, Task> ::
               tasks.Keys == slugs && Forest(tasks) && ParentsKnown(tasks) ==> FamiliesAgree(tasks))
       <==> (forall s :: s in slugs ==> Legal(s))
  {
    if forall s :: s in slugs ==> Legal(s) {
      forall tasks: map<Slug, Task> | tasks.Keys == slugs && Forest(tasks) && ParentsKnown(tasks)
        ensures FamiliesAgree(tasks)
      {
        LegalFamiliesAgree(tasks);
      }
    } else {
      var s :| s in slugs && !Legal(s);
      var tasks := Flat(slugs);
      assert tasks.Keys == slugs && TreeEdges(tasks) == {};
      assert Forest(tasks) && ParentsKnown(tasks);
      TrimFixesTrimmed(s);
      FamilyIsDescendants(tasks, s);
      ReachesSelf(TreeEdges(tasks), s);
      assert s in Family(tasks, s);
      assert TaskFamilyRoot(tasks, s) != Root(s);
      assert !AgreeAt(tasks, s);
    }
  }

  /** s's chain ends at a recorded parent that is not a task. */
  ghost predicate BrokenAbove(tasks: map<Slug, Task>, s: Slug) {
    exists t :: t in tasks && tasks[t].parent.Some? && tasks[t].parent.value !in tasks && Reaches(TreeEdges(tasks), s, t)
  }

  lemma BrokenAboveMissing(tasks: map<Slug, Task>, s: Slug, top: Slug)
    requires Forest(tasks) && s in tasks && Top(tasks, top) && Reaches(TreeEdges(tasks), s, top)
    requires forall r :: Top(tasks, r) ==> (Reaches(TreeEdges(tasks), s, r) <==> r == top)
    ensures top !in tasks <==> BrokenAbove(tasks, s)
  {
    if top !in tasks && !BrokenAbove(tasks, s) {
      var nodes := set t | t in tasks && Reaches(TreeEdges(tasks), s, t);
      ReachesSelf(TreeEdges(tasks), s);
      forall e | e in TreeEdges(tasks) && e.child in nodes ensures e.parent in nodes {
        ReachesEdge(TreeEdges(tasks), e);
        ReachesTransitive(TreeEdges(tasks), s, e.child, e.parent);
      }
      ClosedKeepsReachable(TreeEdges(tasks), nodes, s, top);
    }
    if BrokenAbove(tasks, s) {
      var t :| t in tasks && tasks[t].parent.Some? && tasks[t].parent.value !in tasks && Reaches(TreeEdges(tasks), s, t);
      var missing := tasks[t].parent.value;
      assert Edge(t, missing) in TreeEdges(tasks);
      ReachesEdge(TreeEdges(tasks), Edge(t, missing));
      ReachesTransitive(TreeEdges(tasks), s, t, missing);
      assert Top(tasks, missing);
    }
  }

  /** A parent row that does not exist: the walk reports that missing slug, whose family is
      empty, so the task is not in the family it is filed under. The documentation promises
      the last known task instead. */
  lemma MissingParentLosesFamily(tasks: map<Slug, Task>, s: Slug)
    requires Forest(tasks) && LegalSlugs(tasks) && s in tasks
    ensures TaskFamilyRoot(tasks, s).Root?
    ensures s in Family(tasks, TaskFamilyRoot(tasks, s).slug) <==> !BrokenAbove(tasks, s)
    ensures BrokenAbove(tasks, s) <==> TaskFamilyRoot(tasks, s).slug !in tasks
  {
    var root := FamilyRootIsTop(tasks, s);
    FamilyIsDescendants(tasks, root);
    BrokenAboveMissing(tasks, s, root);
  }

  // ----- the hop bound is tight -----

  /** A chain of n subtask links, told apart by the lengths of their names. */
  function Deep(n: nat): map<Slug, Task> {
    map s | s in DeepSlugs(n) ::
      Task(Backlog, None, if |s| <= n then Some(s + "n") else None, None, false, "")
  }

  function DeepSlugs(n: nat): set<Slug> {
    set i | 0 <= i <= n :: Dependencies.Name(i)
  }

  lemma {:induction false} DeepAncestor(n: nat, i: nat, k: nat)
    requires i + k <= n
    ensures Ancestor(Deep(n), Dependencies.Name(i), k) == Some(Dependencies.Name(i + k))
    decreases k
  {
    if k > 0 {
      assert Dependencies.Name(i) in DeepSlugs(n);
      assert Dependencies.Name(i) + "n" == Dependencies.Name(i + 1);
      DeepAncestor(n, i + 1, k - 1);
    }
  }

  lemma {:induction false} DeepOnlyUp(n: nat, p: seq<Slug>)
    requires IsPath(TreeEdges(Deep(n)), p)
    ensures |p[0]| + |p| - 1 == |p[|p| - 1]|
    decreases |p|
  {
    if |p| > 1 {
      assert Edge(p[0], p[1]) in TreeEdges(Deep(n));
      var q := p[1..];
      forall i | 0 < i < |q| ensures Edge(q[i - 1], q[i]) in TreeEdges(Deep(n)) {
        assert Edge(p[i], p[i + 1]) in TreeEdges(Deep(n));
      }
      DeepOnlyUp(n, q);
    }
  }

  lemma DeepForest(n: nat)
    ensures Forest(Deep(n))
    ensures "" !in Deep(n) && Dependencies.Name(0) in Deep(n) && Dependencies.Name(n) in Deep(n)
  {
    var edges := TreeEdges(Deep(n));
    forall e | e in edges && Reaches(edges, e.parent, e.child) ensures false {
      var p :| IsPath(edges, p) && p[0] == e.parent && p[|p| - 1] == e.child;
      DeepOnlyUp(n, p);
    }
    assert Dependencies.Name(0) in DeepSlugs(n) && Dependencies.Name(n) in DeepSlugs(n);
  }

  lemma DeepOutOfSight(n: nat)
    requires HOP_LIMIT <= n
    ensures !WouldCycleHierarchy(Deep(n), Dependencies.Name(n), Dependencies.Name(0))
  {
    var child, parent := Dependencies.Name(n), Dependencies.Name(0);
    if Within(Deep(n), parent, HOP_LIMIT, child) {
      var k: nat :| k < HOP_LIMIT && Ancestor(Deep(n), parent, k) == Some(child);
      DeepAncestor(n, 0, k);
      Dependencies.NamesDiffer(k, n);
    }
    GuardExact(Deep(n), child, parent);
  }

  /** Every chain of HOP_LIMIT or more links is a forest in which its top task can be made a
      subtask of its bottom one: the guard accepts and the hierarchy becomes cyclic. */
  lemma GuardMissesDeepChild(db: Db, n: nat, now: string)
    requires HOP_LIMIT <= n && db.tasks == Deep(n) && ForeignKeys(db)
    ensures Forest(db.tasks)
    ensures SetParent(db, Dependencies.Name(n), Dependencies.Name(0), now).1.Ok?
    ensures !Forest(SetParent(db, Dependencies.Name(n), Dependencies.Name(0), now).0.tasks)
  {
    DeepForest(n);
    DeepOutOfSight(n);
    DeepAncestor(n, 0, n);
    Dependencies.NamesDiffer(0, n);
    AcceptedTooDeep(db, Dependencies.Name(n), Dependencies.Name(0), n, now);
  }

  lemma AcceptedTooDeep(db: Db, child: Slug, parent: Slug, n: nat, now: string)
    requires ForeignKeys(db) && Forest(db.tasks) && "" !in db.tasks
    requires child in db.tasks && parent in db.tasks && child != parent && Trimmed(child) && Trimmed(parent)
    requires HOP_LIMIT <= n && Ancestor(db.tasks, parent, n) == Some(child)
    requires !WouldCycleHierarchy(db.tasks, child, parent)
    ensures SetParent(db, child, parent, now).1.Ok?
    ensures !Forest(SetParent(db, child, parent, now).0.tasks)
  {
    TrimFixesTrimmed(child);
    TrimFixesTrimmed(parent);
    SetParentForestExact(db, child, parent, now);
  }

  /** Each task of the list records, up to white space, the next one as its parent. */
  ghost predicate Climb(tasks: map<Slug, Task>, path: seq<Slug>) {
    path != [] && forall i :: 0 <= i < |path| - 1 ==> Hop(tasks, path[i], path[i + 1])
  }

  predicate Hop(tasks: map<Slug, Task>, a: Slug, b: Slug) {
    a in tasks && tasks[a].parent.Some? && Trim(tasks[a].parent.value) == b && b != ""
  }

  ghost predicate Climbs(tasks: map<Slug, Task>, a: Slug, b: Slug) {
    exists path :: Climb(tasks, path) && path[0] == a && path[|path| - 1] == b
  }

  lemma ClimbsSelf(tasks: map<Slug, Task>, a: Slug)
    ensures Climbs(tasks, a, a)
  {
    assert Climb(tasks, [a]);
  }

  /** The recorded parent leads back. */
  ghost predicate OnCycle(tasks: map<Slug, Task>, c: Slug) {
    c in tasks && tasks[c].parent.Some? && Climbs(tasks, Trim(tasks[c].parent.value), c)
  }

  /** No parent recorded, white space aside. */
  predicate Parentless(tasks: map<Slug, Task>, s: Slug) {
    s in tasks ==> tasks[s].parent == None || Trim(tasks[s].parent.value) == ""
  }

  lemma ClimbsUp(tasks: map<Slug, Task>, a: Slug, b: Slug)
    requires b in tasks && tasks[b].parent.Some? && Trim(tasks[b].parent.value) != "" && Climbs(tasks, a, b)
    ensures Climbs(tasks, a, Trim(tasks[b].parent.value))
  {
    var path :| Climb(tasks, path) && path[0] == a && path[|path| - 1] == b;
    assert Climb(tasks, path + [Trim(tasks[b].parent.value)]);
  }

  /** What the walk reports, on every table. A blank slug and an unknown one are errors. A root is
      where the recorded parents, trimmed, lead from the slug: to a task without a parent or to a
      slug that is not a task. A cycle is reported at a task that the parents lead to and that has
      a parent from which they lead back to it. */
  lemma WalkReports(tasks: map<Slug, Task>, slugArg: Slug)
    ensures TaskFamilyRoot(tasks, slugArg) == SlugMissing <==> Trim(slugArg) == ""
    ensures TaskFamilyRoot(tasks, slugArg) == NotFound <==> Trim(slugArg) != "" && Trim(slugArg) !in tasks
    ensures TaskFamilyRoot(tasks, slugArg).Root? ==>
      var root := TaskFamilyRoot(tasks, slugArg).slug; Climbs(tasks, Trim(slugArg), root) && Parentless(tasks, root)
    ensures TaskFamilyRoot(tasks, slugArg).CycleAt? ==>
      var c := TaskFamilyRoot(tasks, slugArg).slug;
      Climbs(tasks, Trim(slugArg), c) && OnCycle(tasks, c)
  {
    if Trim(slugArg) != "" {
      ClimbsSelf(tasks, Trim(slugArg));
      WalkEnds(tasks, Trim(slugArg), {}, true, Trim(slugArg));
    }
  }

  lemma {:induction false} WalkEnds(tasks: map<Slug, Task>, current: Slug, seen: set<Slug>, first: bool, start: Slug)
    requires Climbs(tasks, start, current)
    requires forall x :: x in seen ==> x in tasks && tasks[x].parent.Some? && Climbs(tasks, Trim(tasks[x].parent.value), current)
    requires first ==> seen == {}
    ensures var r := Walk(tasks, current, seen, first);
      && r != SlugMissing
      && (r == NotFound <==> first && current !in tasks)
      && (r.Root? ==> Climbs(tasks, start, r.slug) && Parentless(tasks, r.slug))
      && (r.CycleAt? ==> Climbs(tasks, start, r.slug) && OnCycle(tasks, r.slug))
    decreases tasks.Keys - seen
  {
    if current !in seen && current in tasks && tasks[current].parent.Some? && Trim(tasks[current].parent.value) != "" {
      var up := Trim(tasks[current].parent.value);
      ClimbsUp(tasks, start, current);
      ClimbsSelf(tasks, up);
      forall x | x in seen ensures Climbs(tasks, Trim(tasks[x].parent.value), up) {
        ClimbsUp(tasks, Trim(tasks[x].parent.value), current);
      }
      WalkEnds(tasks, up, seen + {current}, false, start);
    }
  }
}
