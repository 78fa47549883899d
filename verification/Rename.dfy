/** Changing a task's slug: the statement-by-statement cascade, and why the result is the
    same graph under another name. */
module Rename {
  import opened Text
  import opened Graphs
  import opened TaskTables
  import opened StartGate
  import Hierarchy
  import Families

  function RelabelRef(src: Slug, dst: Slug, ref: Option<Slug>): Option<Slug> {
    if ref == Some(src) then Some(dst) else ref
  }

  // ----- one UPDATE each -----

  function MoveRow(tasks: map<Slug, Task>, src: Slug, dst: Slug, now: string): map<Slug, Task> {
    if src in tasks then (tasks - {src})[dst := tasks[src].(updatedAt := now)] else tasks
  }

  function MoveParents(tasks: map<Slug, Task>, src: Slug, dst: Slug): map<Slug, Task> {
    map s | s in tasks :: tasks[s].(parent := RelabelRef(src, dst, tasks[s].parent))
  }

  function MoveForks(tasks: map<Slug, Task>, src: Slug, dst: Slug): map<Slug, Task> {
    map s | s in tasks :: tasks[s].(forkedFrom := RelabelRef(src, dst, tasks[s].forkedFrom))
  }

  function MoveChildSide(deps: seq<Dep>, src: Slug, dst: Slug): seq<Dep> {
    seq(|deps|, i requires 0 <= i < |deps| => deps[i].(child := Relabel(src, dst, deps[i].child)))
  }

  function MoveParentSide(deps: seq<Dep>, src: Slug, dst: Slug): seq<Dep> {
    seq(|deps|, i requires 0 <= i < |deps| => deps[i].(parent := Relabel(src, dst, deps[i].parent)))
  }

  function MoveTags(tags: set<(Slug, string)>, src: Slug, dst: Slug): set<(Slug, string)> {
    set t | t in tags :: (Relabel(src, dst, t.0), t.1)
  }

  function MoveLinkSources(links: set<Link>, src: Slug, dst: Slug): set<Link> {
    set l | l in links :: l.(from := Relabel(src, dst, l.from))
  }

  function MoveLinkTargets(links: set<Link>, src: Slug, dst: Slug): set<Link> {
    set l | l in links :: l.(to := Relabel(src, dst, l.to))
  }

  function MoveRuntime(runtime: map<string, Option<Slug>>, src: Slug, dst: Slug): map<string, Option<Slug>> {
    map k | k in runtime :: RelabelRef(src, dst, runtime[k])
  }

  /** All the cascade's statements, in order; github_event_log has none. */
  function Cascade(db: Db, src: Slug, dst: Slug, now: string): Db {
    Db(
      MoveForks(MoveParents(MoveRow(db.tasks, src, dst, now), src, dst), src, dst),
      MoveParentSide(MoveChildSide(db.deps, src, dst), src, dst),
      MoveTags(db.tags, src, dst),
      MoveLinkTargets(MoveLinkSources(db.links, src, dst), src, dst),
      MoveRuntime(db.runtime, src, dst),
      db.events)
  }

  /** RenameTask: the deferred foreign keys are checked at commit, and a violation rolls
      everything back. */
  function RenameTask(db: Db, src: Slug, dst: Slug, now: string): (Db, Outcome) {
    if src == dst then (db, Ok)
    else if dst in db.tasks then (db, Rejected(SlugTaken))
    else
      var after := Cascade(db, src, dst, now);
      if ForeignKeys(after) then (after, Ok) else (db, Rejected(ForeignKey))
  }

  predicate LoggedEvent(db: Db, slug: Slug) {
    exists k :: k in db.events && db.events[k] == Some(slug)
  }

  function MovedTask(db: Db, src: Slug, dst: Slug, now: string, s: Slug): Task
    requires s in db.tasks
  {
    db.tasks[s].(
      parent := RelabelRef(src, dst, db.tasks[s].parent),
      forkedFrom := RelabelRef(src, dst, db.tasks[s].forkedFrom),
      updatedAt := if s == src then now else db.tasks[s].updatedAt)
  }

  function MovedDep(src: Slug, dst: Slug, d: Dep): Dep {
    Dep(Relabel(src, dst, d.child), Relabel(src, dst, d.parent), d.createdAt)
  }

  /** What a completed cascade amounts to, table by table. */
  ghost predicate Renamed(db: Db, after: Db, src: Slug, dst: Slug, now: string) {
    && src in db.tasks && dst !in db.tasks
    && (forall t :: t in after.tasks <==> (t in db.tasks && t != src) || t == dst)
    && (forall s :: s in db.tasks ==> after.tasks[Relabel(src, dst, s)] == MovedTask(db, src, dst, now, s))
    && |after.deps| == |db.deps|
    && (forall i :: 0 <= i < |db.deps| ==> after.deps[i] == MovedDep(src, dst, db.deps[i]))
    && after.tags == MoveTags(db.tags, src, dst)
    && after.links == MoveLinkTargets(MoveLinkSources(db.links, src, dst), src, dst)
    && after.runtime == MoveRuntime(db.runtime, src, dst)
    && after.events == db.events
  }

  lemma CascadeRenames(db: Db, src: Slug, dst: Slug, now: string)
    requires dst !in db.tasks && src in db.tasks
    ensures Renamed(db, Cascade(db, src, dst, now), src, dst, now)
  {
  }

  lemma CascadeAbsent(db: Db, src: Slug, dst: Slug, now: string)
    requires ForeignKeys(db) && src !in db.tasks
    ensures Cascade(db, src, dst, now) == db
  {
    var after := Cascade(db, src, dst, now);
    forall i | 0 <= i < |db.deps| ensures after.deps[i] == db.deps[i] { assert db.deps[i] in db.deps; }
    assert after.deps == db.deps;
    forall t | t in db.tags ensures (Relabel(src, dst, t.0), t.1) == t {}
    assert after.tags == db.tags;
    forall l | l in db.links
      ensures l.(from := Relabel(src, dst, l.from)) == l && l.(to := Relabel(src, dst, l.to)) == l {}
    assert MoveLinkSources(db.links, src, dst) == db.links;
    assert after.links == db.links;
  }

  /** The name a task of the new table had before. */
  function Before(src: Slug, dst: Slug, t: Slug): Slug {
    if t == dst then src else t
  }

  lemma RenamedReferences(db: Db, after: Db, src: Slug, dst: Slug, now: string)
    requires ForeignKeys(db) && Renamed(db, after, src, dst, now)
    ensures forall d :: d in after.deps ==> d.child in after.tasks && d.parent in after.tasks
    ensures forall s :: s in after.tasks ==> Known(after, after.tasks[s].parent) && Known(after, after.tasks[s].forkedFrom)
  {
    forall d | d in after.deps ensures d.child in after.tasks && d.parent in after.tasks {
      var i :| 0 <= i < |after.deps| && after.deps[i] == d;
      assert db.deps[i] in db.deps;
    }
    forall s | s in after.tasks ensures Known(after, after.tasks[s].parent) && Known(after, after.tasks[s].forkedFrom) {
      assert Relabel(src, dst, Before(src, dst, s)) == s && Before(src, dst, s) in db.tasks;
    }
  }

  lemma RenamedForeignKeys(db: Db, after: Db, src: Slug, dst: Slug, now: string)
    requires ForeignKeys(db) && Renamed(db, after, src, dst, now)
    ensures ForeignKeys(after) <==> !LoggedEvent(db, src)
  {
    RenamedReferences(db, after, src, dst, now);
    LinkMoves(db.links, src, dst);
    if LoggedEvent(db, src) {
      var k :| k in db.events && db.events[k] == Some(src);
      assert !Known(after, after.events[k]);
    }
  }

  /** When a rename goes through: the target is free, and no logged GitHub event still
      names the task. A refused rename changes nothing. */
  lemma RenameSucceedsExactly(db: Db, src: Slug, dst: Slug, now: string)
    requires ForeignKeys(db)
    ensures var (after, outcome) := RenameTask(db, src, dst, now);
      && (outcome.Ok? <==> src == dst || (dst !in db.tasks && !(src in db.tasks && LoggedEvent(db, src))))
      && (outcome.Ok? && src in db.tasks && src != dst ==> Renamed(db, after, src, dst, now) && ForeignKeys(after))
      && (outcome != Ok || src !in db.tasks || src == dst ==> after == db)
  {
    if src != dst && dst !in db.tasks {
      if src in db.tasks {
        CascadeRenames(db, src, dst, now);
        RenamedForeignKeys(db, Cascade(db, src, dst, now), src, dst, now);
      } else {
        CascadeAbsent(db, src, dst, now);
      }
    }
  }

  lemma RenamedDepEdges(db: Db, after: Db, src: Slug, dst: Slug, now: string)
    requires Renamed(db, after, src, dst, now)
    ensures DepEdges(after.deps) == RelabelEdges(src, dst, DepEdges(db.deps))
  {
    forall e ensures e in DepEdges(after.deps) <==> e in RelabelEdges(src, dst, DepEdges(db.deps)) {
      if e in DepEdges(after.deps) {
        var d :| d in after.deps && EdgeOf(d) == e;
        var i :| 0 <= i < |after.deps| && after.deps[i] == d;
        assert EdgeOf(db.deps[i]) in DepEdges(db.deps);
        assert e == RelabelEdge(src, dst, EdgeOf(db.deps[i]));
      }
      if e in RelabelEdges(src, dst, DepEdges(db.deps)) {
        var b :| b in DepEdges(db.deps) && RelabelEdge(src, dst, b) == e;
        var d :| d in db.deps && EdgeOf(d) == b;
        var i :| 0 <= i < |db.deps| && db.deps[i] == d;
        assert EdgeOf(after.deps[i]) == e;
      }
    }
  }

  lemma RenamedTreeEdges(db: Db, after: Db, src: Slug, dst: Slug, now: string)
    requires Renamed(db, after, src, dst, now)
    ensures TreeEdges(after.tasks) == RelabelEdges(src, dst, TreeEdges(db.tasks))
  {
    forall e ensures e in TreeEdges(after.tasks) <==> e in RelabelEdges(src, dst, TreeEdges(db.tasks)) {
      if e in TreeEdges(after.tasks) {
        var s := Before(src, dst, e.child);
        assert Relabel(src, dst, s) == e.child && s in db.tasks;
        assert Edge(s, db.tasks[s].parent.value) in TreeEdges(db.tasks);
        assert e == RelabelEdge(src, dst, Edge(s, db.tasks[s].parent.value));
      }
      if e in RelabelEdges(src, dst, TreeEdges(db.tasks)) {
        var b :| b in TreeEdges(db.tasks) && RelabelEdge(src, dst, b) == e;
        assert b.child in db.tasks;
      }
    }
  }

  lemma FreshUnmentioned(db: Db, dst: Slug)
    requires ForeignKeys(db) && dst !in db.tasks
    ensures !Mentions(DepEdges(db.deps), dst) && !Mentions(TreeEdges(db.tasks), dst)
  {
    forall e | e in DepEdges(db.deps) ensures e.child != dst && e.parent != dst {
      var d :| d in db.deps && EdgeOf(d) == e;
    }
  }

  function NewName(src: Slug, dst: Slug, s: Slug): Slug {
    if s == src then dst else s
  }

  function NewRef(src: Slug, dst: Slug, ref: Option<Slug>): Option<Slug> {
    match ref
    case None => None
    case Some(s) => Some(NewName(src, dst, s))
  }

  /** What a rename that goes through leaves, column by column: each task under its new name, with
      its parent and origin under theirs and all else as it was, the renamed one stamped. */
  lemma RenameLeavesTasks(db: Db, src: Slug, dst: Slug, now: string)
    requires ForeignKeys(db) && src in db.tasks && src != dst && RenameTask(db, src, dst, now).1.Ok?
    ensures var after := RenameTask(db, src, dst, now).0;
      && (forall t :: t in after.tasks <==> exists s :: s in db.tasks && NewName(src, dst, s) == t)
      && (forall s :: s in db.tasks ==> NewRow(db, after, src, dst, now, s))
  {
    RenameSucceedsExactly(db, src, dst, now);
    RenamedRows(db, RenameTask(db, src, dst, now).0, src, dst, now);
  }

  predicate NewRow(db: Db, after: Db, src: Slug, dst: Slug, now: string, s: Slug)
    requires s in db.tasks
  {
    var row := db.tasks[s];
    && NewName(src, dst, s) in after.tasks
    && after.tasks[NewName(src, dst, s)] ==
         Task(row.status, row.waitingOn, NewRef(src, dst, row.parent), NewRef(src, dst, row.forkedFrom),
              row.deleted, if s == src then now else row.updatedAt)
  }

  /** Each dependency in its place with both ends under their new names, the runtime rows likewise,
      and the logged events as they are. */
  lemma RenameLeavesRows(db: Db, src: Slug, dst: Slug, now: string)
    requires ForeignKeys(db) && src in db.tasks && src != dst && RenameTask(db, src, dst, now).1.Ok?
    ensures var after := RenameTask(db, src, dst, now).0;
      && |after.deps| == |db.deps|
      && (forall i :: 0 <= i < |db.deps| ==> NewDep(src, dst, db.deps[i], after.deps[i]))
      && after.runtime.Keys == db.runtime.Keys
      && (forall k :: k in db.runtime ==> after.runtime[k] == NewRef(src, dst, db.runtime[k]))
      && after.events == db.events
  {
    RenameSucceedsExactly(db, src, dst, now);
    RenamedDependencies(db, RenameTask(db, src, dst, now).0, src, dst, now);
  }

  predicate NewDep(src: Slug, dst: Slug, before: Dep, after: Dep) {
    after.child == NewName(src, dst, before.child) && after.parent == NewName(src, dst, before.parent)
    && after.createdAt == before.createdAt
  }

  lemma RenamedDependencies(db: Db, after: Db, src: Slug, dst: Slug, now: string)
    requires Renamed(db, after, src, dst, now)
    ensures |after.deps| == |db.deps| && forall i :: 0 <= i < |db.deps| ==> NewDep(src, dst, db.deps[i], after.deps[i])
    ensures after.runtime.Keys == db.runtime.Keys
    ensures forall k :: k in db.runtime ==> after.runtime[k] == NewRef(src, dst, db.runtime[k])
    ensures after.events == db.events
  {
  }

  /** And the tags and the links. */
  lemma RenameLeavesSets(db: Db, src: Slug, dst: Slug, now: string)
    requires ForeignKeys(db) && src in db.tasks && src != dst && RenameTask(db, src, dst, now).1.Ok?
    ensures var after := RenameTask(db, src, dst, now).0;
      && (forall t :: t in after.tags <==> exists o :: o in db.tags && t == (NewName(src, dst, o.0), o.1))
      && (forall l :: l in after.links <==> exists o :: o in db.links && NewLink(src, dst, o, l))
  {
    RenameSucceedsExactly(db, src, dst, now);
    RenamedSets(db, RenameTask(db, src, dst, now).0, src, dst, now);
  }

  predicate NewLink(src: Slug, dst: Slug, before: Link, after: Link) {
    after.from == NewName(src, dst, before.from) && after.to == NewName(src, dst, before.to) && after.source == before.source
  }

  lemma RenamedSets(db: Db, after: Db, src: Slug, dst: Slug, now: string)
    requires Renamed(db, after, src, dst, now)
    ensures forall t :: t in after.tags <==> exists o :: o in db.tags && t == (NewName(src, dst, o.0), o.1)
    ensures forall l :: l in after.links <==> exists o :: o in db.links && NewLink(src, dst, o, l)
  {
    LinkMoves(db.links, src, dst);
    forall s ensures NewName(src, dst, s) == Relabel(src, dst, s) {}
  }

  lemma RenamedRows(db: Db, after: Db, src: Slug, dst: Slug, now: string)
    requires Renamed(db, after, src, dst, now)
    ensures forall t :: t in after.tasks <==> exists s :: s in db.tasks && NewName(src, dst, s) == t
    ensures forall s :: s in db.tasks ==> NewRow(db, after, src, dst, now, s)
  {
    forall t | t in after.tasks ensures exists s :: s in db.tasks && NewName(src, dst, s) == t {
      assert NewName(src, dst, if t == dst then src else t) == t;
    }
    forall s | s in db.tasks ensures NewName(src, dst, s) in after.tasks && after.tasks[NewName(src, dst, s)] == MovedTask(db, src, dst, now, s) {
      assert NewName(src, dst, s) == Relabel(src, dst, s);
    }
  }

  /** No key collides: the primary key of task_dependencies survives the cascade. */
  lemma RenameKeepsConstraints(db: Db, src: Slug, dst: Slug, now: string)
    requires Constraints(db)
    ensures Constraints(RenameTask(db, src, dst, now).0)
  {
    RenameSucceedsExactly(db, src, dst, now);
    var after := RenameTask(db, src, dst, now).0;
    if after != db { RenamedUnique(db, after, src, dst, now); }
  }

  lemma RenamedUnique(db: Db, after: Db, src: Slug, dst: Slug, now: string)
    requires Constraints(db) && Renamed(db, after, src, dst, now)
    ensures UniqueDeps(after.deps)
  {
    forall i, j | 0 <= i < j < |after.deps|
      ensures after.deps[i].child != after.deps[j].child || after.deps[i].parent != after.deps[j].parent
    {
      assert db.deps[i] in db.deps && db.deps[j] in db.deps;
    }
  }

  /** The renaming carries one graph over the given nodes onto the other. */
  ghost predicate Isomorphic(edges: set<Edge>, image: set<Edge>, src: Slug, dst: Slug, nodes: set<Slug>) {
    && (forall a, b :: a in nodes && b in nodes ==>
         (Reaches(edges, a, b) <==> Reaches(image, Relabel(src, dst, a), Relabel(src, dst, b))))
    && (Acyclic(edges) <==> Acyclic(image))
  }

  ghost predicate SameGraphs(db: Db, after: Db, src: Slug, dst: Slug) {
    && Isomorphic(DepEdges(db.deps), DepEdges(after.deps), src, dst, db.tasks.Keys)
    && Isomorphic(TreeEdges(db.tasks), TreeEdges(after.tasks), src, dst, db.tasks.Keys)
  }

  lemma ImageIsomorphic(edges: set<Edge>, src: Slug, dst: Slug, nodes: set<Slug>)
    requires !Mentions(edges, dst) && dst !in nodes
    ensures Isomorphic(edges, RelabelEdges(src, dst, edges), src, dst, nodes)
  {
    RelabelAcyclic(edges, src, dst);
    forall a, b | a in nodes && b in nodes
      ensures Reaches(edges, a, b) <==> Reaches(RelabelEdges(src, dst, edges), Relabel(src, dst, a), Relabel(src, dst, b))
    {
      RelabelReaches(edges, src, dst, a, b);
    }
  }

  lemma RenamedSameGraphs(db: Db, after: Db, src: Slug, dst: Slug, now: string)
    requires ForeignKeys(db) && Renamed(db, after, src, dst, now)
    ensures SameGraphs(db, after, src, dst)
  {
    RenamedDepEdges(db, after, src, dst, now);
    RenamedTreeEdges(db, after, src, dst, now);
    FreshUnmentioned(db, dst);
    ImageIsomorphic(DepEdges(db.deps), src, dst, db.tasks.Keys);
    ImageIsomorphic(TreeEdges(db.tasks), src, dst, db.tasks.Keys);
  }

  /** Every rename, refused or not, leaves both task graphs the same up to the new name. */
  lemma RenameIsIsomorphism(db: Db, src: Slug, dst: Slug, now: string)
    requires ForeignKeys(db)
    ensures var (after, outcome) := RenameTask(db, src, dst, now);
      if outcome.Ok? then SameGraphs(db, after, src, dst) else SameGraphs(db, after, src, src)
  {
    RenameSucceedsExactly(db, src, dst, now);
    var after := RenameTask(db, src, dst, now).0;
    if src in db.tasks && RenameTask(db, src, dst, now).1.Ok? && src != dst {
      RenamedSameGraphs(db, after, src, dst, now);
    }
  }

  /** A family keeps its members under the new name. */
  lemma RenamedFamilies(db: Db, after: Db, src: Slug, dst: Slug, now: string, root: Slug, t: Slug)
    requires ForeignKeys(db) && Renamed(db, after, src, dst, now)
    requires root in db.tasks && t in db.tasks
    ensures Relabel(src, dst, t) in Families.Family(after.tasks, Relabel(src, dst, root))
       <==> t in Families.Family(db.tasks, root)
  {
    RenamedSameGraphs(db, after, src, dst, now);
    Families.FamilyIsDescendants(db.tasks, root);
    Families.FamilyIsDescendants(after.tasks, Relabel(src, dst, root));
  }

  ghost predicate PendingOn(db: Db, child: Slug, parent: Slug) {
    Waits(db, child, parent) && !FinishedParent(db, parent)
  }

  lemma RenamedWaits(db: Db, after: Db, src: Slug, dst: Slug, now: string, s: Slug, p: Slug)
    requires ForeignKeys(db) && Renamed(db, after, src, dst, now) && s in db.tasks && p in db.tasks
    ensures Waits(after, Relabel(src, dst, s), Relabel(src, dst, p)) <==> Waits(db, s, p)
    ensures FinishedParent(after, Relabel(src, dst, p)) <==> FinishedParent(db, p)
  {
    var t, q := Relabel(src, dst, s), Relabel(src, dst, p);
    RenamedDepEdges(db, after, src, dst, now);
    if Waits(db, s, p) { assert RelabelEdge(src, dst, Edge(s, p)) == Edge(t, q); }
    if Waits(after, t, q) {
      var b :| b in DepEdges(db.deps) && RelabelEdge(src, dst, b) == Edge(t, q);
      FreshUnmentioned(db, dst);
      assert b == Edge(s, p);
    }
  }

  lemma RenamedPending(db: Db, after: Db, src: Slug, dst: Slug, now: string, s: Slug, p: Slug)
    requires ForeignKeys(db) && Renamed(db, after, src, dst, now) && s in db.tasks && p in db.tasks
    ensures PendingOn(after, Relabel(src, dst, s), Relabel(src, dst, p)) <==> PendingOn(db, s, p)
  {
    RenamedWaits(db, after, src, dst, now, s, p);
  }

  lemma KnownParent(db: Db, s: Slug, p: Slug)
    requires ForeignKeys(db) && Waits(db, s, p)
    ensures p in db.tasks
  {
    var d :| d in db.deps && EdgeOf(d) == Edge(s, p);
  }

  ghost predicate AnyPending(db: Db, child: Slug) {
    exists p :: PendingOn(db, child, p)
  }

  lemma VerdictWithoutNote(db: Db, s: Slug, lower: string -> string)
    requires s in db.tasks && Note(db.tasks[s]) == ""
    ensures StartBlocker(db, s, lower) == None <==> !AnyPending(db, s)
    ensures StartBlocker(db, s, lower).Some? ==> StartBlocker(db, s, lower).value.Dependency?
  {
    StartBlockerMeaning(db, s, lower);
    if StartBlocker(db, s, lower) == None {
      forall p | Waits(db, s, p) ensures !PendingOn(db, s, p) { assert FinishedParent(db, p); }
    }
    if !AnyPending(db, s) {
      forall p | Waits(db, s, p) ensures FinishedParent(db, p) { assert !PendingOn(db, s, p); }
    }
  }

  lemma RenamedAnyPending(db: Db, after: Db, src: Slug, dst: Slug, now: string, s: Slug)
    requires ForeignKeys(db) && ForeignKeys(after) && Renamed(db, after, src, dst, now) && s in db.tasks
    ensures AnyPending(after, Relabel(src, dst, s)) <==> AnyPending(db, s)
  {
    var t := Relabel(src, dst, s);
    if p :| PendingOn(db, s, p) {
      KnownParent(db, s, p);
      RenamedPending(db, after, src, dst, now, s, p);
    }
    if q :| PendingOn(after, t, q) {
      KnownParent(after, t, q);
      var p := Before(src, dst, q);
      assert Relabel(src, dst, p) == q;
      RenamedPending(db, after, src, dst, now, s, p);
    }
  }

  /** A task without a note keeps its verdict, and its pending parents are the old ones
      under their new names. */
  lemma RenamedVerdict(db: Db, after: Db, src: Slug, dst: Slug, now: string, s: Slug, lower: string -> string)
    requires ForeignKeys(db) && ForeignKeys(after) && Renamed(db, after, src, dst, now)
    requires s in db.tasks && Note(db.tasks[s]) == ""
    ensures var t := Relabel(src, dst, s);
      && (StartBlocker(after, t, lower) == None <==> StartBlocker(db, s, lower) == None)
      && (StartBlocker(after, t, lower).Some? ==> StartBlocker(after, t, lower).value.Dependency?)
      && forall p :: p in db.tasks ==> (PendingOn(after, t, Relabel(src, dst, p)) <==> PendingOn(db, s, p))
  {
    var t := Relabel(src, dst, s);
    forall p | p in db.tasks ensures PendingOn(after, t, Relabel(src, dst, p)) <==> PendingOn(db, s, p) {
      RenamedPending(db, after, src, dst, now, s, p);
    }
    RenamedAnyPending(db, after, src, dst, now, s);
    RenamedTask(db, after, src, dst, now, s);
    VerdictWithoutNote(db, s, lower);
    VerdictWithoutNote(after, t, lower);
  }

  lemma RenamedTask(db: Db, after: Db, src: Slug, dst: Slug, now: string, s: Slug)
    requires Renamed(db, after, src, dst, now) && s in db.tasks
    ensures var t := Relabel(src, dst, s);
      t in after.tasks && after.tasks[t] == MovedTask(db, src, dst, now, s) && Note(after.tasks[t]) == Note(db.tasks[s])
  {
  }

  /** The note names a parent by the slug it has after the rename. */
  ghost predicate ExcusedAfter(db: Db, s: Slug, lower: string -> string, src: Slug, dst: Slug)
    requires s in db.tasks
  {
    exists p :: Waits(db, s, p) && Relabel(src, dst, p) != ""
      && Contains(lower(Note(db.tasks[s])), lower(Relabel(src, dst, p)))
  }

  lemma RenamedExcuse(db: Db, after: Db, src: Slug, dst: Slug, now: string, s: Slug, lower: string -> string)
    requires ForeignKeys(db) && ForeignKeys(after) && Renamed(db, after, src, dst, now) && s in db.tasks
    ensures Excused(after, Relabel(src, dst, s), lower) <==> ExcusedAfter(db, s, lower, src, dst)
    ensures AllParentsFinished(after, Relabel(src, dst, s)) <==> AllParentsFinished(db, s)
  {
    var t := Relabel(src, dst, s);
    forall p | Waits(db, s, p)
      ensures Waits(after, t, Relabel(src, dst, p))
      ensures FinishedParent(after, Relabel(src, dst, p)) <==> FinishedParent(db, p)
    {
      KnownParent(db, s, p);
      RenamedWaits(db, after, src, dst, now, s, p);
    }
    forall q | Waits(after, t, q)
      ensures Waits(db, s, Before(src, dst, q)) && Relabel(src, dst, Before(src, dst, q)) == q
    {
      KnownParent(after, t, q);
      RenamedWaits(db, after, src, dst, now, s, Before(src, dst, q));
    }
  }

  /** A note is judged by the parents' current slugs: with all parents finished, a task with
      a note may start after the rename exactly when the note names one of the new slugs. */
  lemma RenamedNote(db: Db, after: Db, src: Slug, dst: Slug, now: string, s: Slug, lower: string -> string)
    requires ForeignKeys(db) && ForeignKeys(after) && Renamed(db, after, src, dst, now)
    requires s in db.tasks && Note(db.tasks[s]) != "" && AllParentsFinished(db, s)
    ensures StartBlocker(db, s, lower) == None <==> Excused(db, s, lower)
    ensures StartBlocker(after, Relabel(src, dst, s), lower) == None <==> ExcusedAfter(db, s, lower, src, dst)
  {
    RenamedExcuse(db, after, src, dst, now, s, lower);
    StartBlockerMeaning(db, s, lower);
    StartBlockerMeaning(after, Relabel(src, dst, s), lower);
  }

  /** A noted task that waits for one finished parent. */
  function NotedTask(child: Slug, parent: Slug, note: string): Db {
    Db(map[parent := Task(Done, None, None, None, false, ""),
           child := Task(Backlog, Some(note), None, None, false, "")],
       [Dep(child, parent, "")], {}, {}, map[], map[])
  }

  lemma NotedTaskFacts(child: Slug, parent: Slug, note: string)
    requires child != parent
    ensures Constraints(NotedTask(child, parent, note))
    ensures forall p :: Waits(NotedTask(child, parent, note), child, p) <==> p == parent
  {
    OneDep(child, parent);
    assert NotedTask(child, parent, note).deps[0] == Dep(child, parent, "");
  }

  lemma OneDep(child: Slug, parent: Slug)
    ensures DepEdges([Dep(child, parent, "")]) == {Edge(child, parent)}
  {
    EdgesSplit([Dep(child, parent, "")]);
    assert [Dep(child, parent, "")][1..] == [];
  }

  /** Such a note can change the verdict: renaming the parent it names to anything it does not
      name blocks a task that could start. */
  lemma RenameCanRaiseNote(child: Slug, src: Slug, dst: Slug, note: string, now: string)
    requires child != src && child != dst && src != dst && src != "" && dst != ""
    requires note != "" && Trimmed(note) && Contains(note, src) && !Contains(note, dst)
    ensures var db := NotedTask(child, src, note); var after := RenameTask(db, src, dst, now).0;
      && StartBlocker(db, child, x => x) == None
      && child in after.tasks && StartBlocker(after, child, x => x).Some?
  {
    var db := NotedTask(child, src, note);
    NotedTaskFacts(child, src, note);
    TrimFixesTrimmed(note);
    RenameSucceedsExactly(db, src, dst, now);
    var after := RenameTask(db, src, dst, now).0;
    assert Relabel(src, dst, child) == child;
    RenamedNote(db, after, src, dst, now, child, x => x);
  }

  /** Renaming there and back restores everything but the row's own timestamp. */
  lemma RenameBack(db: Db, src: Slug, dst: Slug, there: string, back: string)
    requires Constraints(db) && src != dst && src in db.tasks && RenameTask(db, src, dst, there).1.Ok?
    ensures RenameTask(RenameTask(db, src, dst, there).0, dst, src, back)
         == (db.(tasks := db.tasks[src := db.tasks[src].(updatedAt := back)]), Ok)
  {
    RenameSucceedsExactly(db, src, dst, there);
    var after := RenameTask(db, src, dst, there).0;
    RenameSucceedsExactly(after, dst, src, back);
    FreshUnlogged(db, dst);
    assert LoggedEvent(after, dst) == LoggedEvent(db, dst);
    var again := RenameTask(after, dst, src, back).0;
    RestoredTasks(db, after, again, src, dst, there, back);
    RestoredRest(db, after, again, src, dst, there, back);
  }

  lemma FreshUnlogged(db: Db, dst: Slug)
    requires ForeignKeys(db) && dst !in db.tasks
    ensures !LoggedEvent(db, dst)
  {
  }

  lemma RestoredTasks(db: Db, after: Db, again: Db, src: Slug, dst: Slug, there: string, back: string)
    requires ForeignKeys(db) && Renamed(db, after, src, dst, there) && Renamed(after, again, dst, src, back)
    ensures again.tasks == db.tasks[src := db.tasks[src].(updatedAt := back)]
  {
    forall s | s in db.tasks
      ensures s in again.tasks && again.tasks[s] == (if s == src then db.tasks[s].(updatedAt := back) else db.tasks[s])
    {
      RestoredTask(db, after, again, src, dst, there, back, s);
    }
    assert again.tasks.Keys == db.tasks.Keys;
  }

  lemma RestoredTask(db: Db, after: Db, again: Db, src: Slug, dst: Slug, there: string, back: string, s: Slug)
    requires ForeignKeys(db) && Renamed(db, after, src, dst, there) && Renamed(after, again, dst, src, back)
    requires s in db.tasks
    ensures s in again.tasks && again.tasks[s] == (if s == src then db.tasks[s].(updatedAt := back) else db.tasks[s])
  {
    var t := Relabel(src, dst, s);
    assert Relabel(dst, src, t) == s;
    RenamedTask(db, after, src, dst, there, s);
    RenamedTask(after, again, dst, src, back, t);
  }

  lemma RestoredRest(db: Db, after: Db, again: Db, src: Slug, dst: Slug, there: string, back: string)
    requires ForeignKeys(db) && Renamed(db, after, src, dst, there) && Renamed(after, again, dst, src, back)
    ensures again.deps == db.deps && again.tags == db.tags && again.links == db.links
    ensures again.runtime == db.runtime && again.events == db.events
  {
    DepsBack(db, after, again, src, dst, there, back);
    TagsBack(db.tags, src, dst);
    LinksBack(db.links, src, dst);
    RuntimeBack(db, src, dst);
  }

  lemma RuntimeBack(db: Db, src: Slug, dst: Slug)
    requires ForeignKeys(db) && dst !in db.tasks
    ensures MoveRuntime(MoveRuntime(db.runtime, src, dst), dst, src) == db.runtime
  {
  }

  lemma DepsBack(db: Db, after: Db, again: Db, src: Slug, dst: Slug, there: string, back: string)
    requires ForeignKeys(db) && Renamed(db, after, src, dst, there) && Renamed(after, again, dst, src, back)
    ensures again.deps == db.deps
  {
    forall i | 0 <= i < |db.deps| ensures again.deps[i] == db.deps[i] { assert db.deps[i] in db.deps; }
  }

  lemma TagsBack(tags: set<(Slug, string)>, src: Slug, dst: Slug)
    requires forall t :: t in tags ==> t.0 != dst
    ensures MoveTags(MoveTags(tags, src, dst), dst, src) == tags
  {
    var moved := MoveTags(tags, src, dst);
    forall t ensures t in MoveTags(moved, dst, src) <==> t in tags {
      if t in tags {
        assert (Relabel(src, dst, t.0), t.1) in moved;
        assert t == (Relabel(dst, src, Relabel(src, dst, t.0)), t.1);
      }
    }
  }

  lemma LinksBack(links: set<Link>, src: Slug, dst: Slug)
    requires forall l :: l in links ==> l.from != dst && l.to != dst
    ensures MoveLinkTargets(MoveLinkSources(MoveLinkTargets(MoveLinkSources(links, src, dst), src, dst), dst, src), dst, src) == links
  {
    LinkMoves(links, src, dst);
    var moved := MoveLinkTargets(MoveLinkSources(links, src, dst), src, dst);
    LinkMoves(moved, dst, src);
    forall l ensures l in MoveLinkTargets(MoveLinkSources(moved, dst, src), dst, src) <==> l in links {
      if l in links {
        var there := Link(Relabel(src, dst, l.from), Relabel(src, dst, l.to), l.source);
        assert there in moved;
        assert l == Link(Relabel(dst, src, there.from), Relabel(dst, src, there.to), there.source);
      }
    }
  }

  lemma LinkMoves(links: set<Link>, src: Slug, dst: Slug)
    ensures MoveLinkTargets(MoveLinkSources(links, src, dst), src, dst)
         == set l | l in links :: Link(Relabel(src, dst, l.from), Relabel(src, dst, l.to), l.source)
  {
    var sources := MoveLinkSources(links, src, dst);
    forall l | l in links
      ensures Link(Relabel(src, dst, l.from), Relabel(src, dst, l.to), l.source) in MoveLinkTargets(sources, src, dst)
    {
      assert l.(from := Relabel(src, dst, l.from)) in sources;
    }
  }
}
