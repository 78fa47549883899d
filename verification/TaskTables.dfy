/** The tables the task commands change, and the constraints SQLite keeps on them. */
module TaskTables {
  import opened Text
  import opened Graphs

  datatype Status = Backlog | InProgress | Done

  datatype Task = Task(
    status: Status,
    waitingOn: Option<string>,
    parent: Option<Slug>,
    forkedFrom: Option<Slug>,
    deleted: bool,
    updatedAt: string)

  /** A task_dependencies row. */
  datatype Dep = Dep(child: Slug, parent: Slug, createdAt: string)

  /** A task_links row; `source` stands for the kind and file columns. */
  datatype Link = Link(from: Slug, to: Slug, source: string)

  /** deps is in scan order: a SELECT without ORDER BY returns rows in an order of the
      engine's choosing, and every result below holds for every such sequence. */
  datatype Db = Db(
    tasks: map<Slug, Task>,
    deps: seq<Dep>,
    tags: set<(Slug, string)>,
    links: set<Link>,
    runtime: map<string, Option<Slug>>,
    events: map<string, Option<Slug>>)

  datatype Reason = SlugRequired | SelfReference | WouldCycle | ForeignKey | ParentNotFound | SlugTaken

  datatype Outcome = Ok | Rejected(reason: Reason)

  predicate Known(db: Db, ref: Option<Slug>) {
    ref.Some? ==> ref.value in db.tasks
  }

  predicate ForeignKeys(db: Db) {
    && (forall s :: s in db.tasks ==> Known(db, db.tasks[s].parent) && Known(db, db.tasks[s].forkedFrom))
    && (forall d :: d in db.deps ==> d.child in db.tasks && d.parent in db.tasks)
    && (forall t :: t in db.tags ==> t.0 in db.tasks)
    && (forall l :: l in db.links ==> l.from in db.tasks && l.to in db.tasks)
    && (forall k :: k in db.runtime ==> Known(db, db.runtime[k]))
    && (forall k :: k in db.events ==> Known(db, db.events[k]))
  }

  /** The primary key of task_dependencies. */
  ghost predicate UniqueDeps(deps: seq<Dep>) {
    forall i, j :: 0 <= i < j < |deps| ==>
      deps[i].child != deps[j].child || deps[i].parent != deps[j].parent
  }

  ghost predicate Constraints(db: Db) {
    ForeignKeys(db) && UniqueDeps(db.deps)
  }

  function EdgeOf(d: Dep): Edge {
    Edge(d.child, d.parent)
  }

  /** Who waits for whom. */
  ghost function DepEdges(deps: seq<Dep>): set<Edge> {
    set d | d in deps :: EdgeOf(d)
  }

  /** Who is a subtask of whom. */
  ghost function TreeEdges(tasks: map<Slug, Task>): set<Edge> {
    set s | s in tasks && tasks[s].parent.Some? :: Edge(s, tasks[s].parent.value)
  }

  lemma TreeEdgeIs(tasks: map<Slug, Task>, e: Edge)
    ensures e in TreeEdges(tasks) <==> e.child in tasks && tasks[e.child].parent == Some(e.parent)
  {
    if e.child in tasks && tasks[e.child].parent == Some(e.parent) {
      assert e == Edge(e.child, tasks[e.child].parent.value);
    }
  }

  /** Tables whose parent columns agree have the same tree. */
  lemma SameParentsSameTree(a: map<Slug, Task>, b: map<Slug, Task>)
    requires forall s :: (s in a && a[s].parent.Some?) <==> (s in b && b[s].parent.Some?)
    requires forall s :: s in a && s in b ==> a[s].parent == b[s].parent
    ensures TreeEdges(a) == TreeEdges(b)
  {
    forall e ensures e in TreeEdges(a) <==> e in TreeEdges(b) {
      TreeEdgeIs(a, e);
      TreeEdgeIs(b, e);
    }
  }

  /** SELECT parent_slug FROM task_dependencies WHERE child_slug = child. */
  function ParentsOf(deps: seq<Dep>, child: Slug): (r: seq<Slug>)
    ensures forall p :: p in r <==> Edge(child, p) in DepEdges(deps)
  {
    if deps == [] then []
    else
      var rest := ParentsOf(deps[1..], child);
      assert deps == [deps[0]] + deps[1..];
      assert forall p :: Edge(child, p) in DepEdges(deps) <==>
        EdgeOf(deps[0]) == Edge(child, p) || Edge(child, p) in DepEdges(deps[1..]) by {
        EdgesSplit(deps);
      }
      if deps[0].child == child then [deps[0].parent] + rest else rest
  }

  lemma EdgesSplit(deps: seq<Dep>)
    requires deps != []
    ensures DepEdges(deps) == {EdgeOf(deps[0])} + DepEdges(deps[1..])
  {
    assert deps == [deps[0]] + deps[1..];
    forall e | e in DepEdges(deps) ensures e in {EdgeOf(deps[0])} + DepEdges(deps[1..]) {
      var d :| d in deps && e == EdgeOf(d);
      if d != deps[0] { assert d in deps[1..]; }
    }
    assert deps[0] in deps;
    forall e | e in DepEdges(deps[1..]) ensures e in DepEdges(deps) {
      var d :| d in deps[1..] && e == EdgeOf(d);
      assert d in deps;
    }
  }

  /** The rows a DELETE leaves: those whose child is not `child`, or whose parent is not
      `parent` when one is given. */
  function RowsLeft(deps: seq<Dep>, child: Slug, parent: Option<Slug>): (r: seq<Dep>)
    ensures forall d :: d in r <==> d in deps && (d.child != child || (parent.Some? && d.parent != parent.value))
    ensures |r| <= |deps|
    ensures UniqueDeps(deps) ==> UniqueDeps(r)
  {
    if deps == [] then []
    else
      var rest := RowsLeft(deps[1..], child, parent);
      var d := deps[0];
      assert deps == [d] + deps[1..];
      assert UniqueDeps(deps) ==> UniqueDeps(deps[1..]);
      if d.child == child && (parent.None? || d.parent == parent.value) then rest
      else
        assert UniqueDeps(deps) ==> UniqueDeps([d] + rest) by {
          if UniqueDeps(deps) {
            forall j | 0 <= j < |rest| ensures rest[j].child != d.child || rest[j].parent != d.parent {
              assert rest[j] in rest;
              var k :| 0 <= k < |deps[1..]| && deps[1..][k] == rest[j];
              assert deps[k + 1] == rest[j];
            }
          }
        }
        [d] + rest
  }
}
