/** The task commands as they run: loops and single SQL statements over the tables, each
    method tied to the function whose properties the other modules prove. */
module TaskStore {
  import opened Text
  import opened Graphs
  import opened TaskTables
  import Dependencies
  import Hierarchy
  import Families
  import StartGate
  import Rename

  class Store {
    var tasks: map<Slug, Task>
    var deps: seq<Dep>
    var tags: set<(Slug, string)>
    var links: set<Link>
    var runtime: map<string, Option<Slug>>
    var events: map<string, Option<Slug>>

    function View(): Db
      reads this
    {
      Db(tasks, deps, tags, links, runtime, events)
    }

    constructor (db: Db)
      ensures View() == db
    {
      tasks, deps, tags, links, runtime, events := db.tasks, db.deps, db.tags, db.links, db.runtime, db.events;
    }

    /** Depth-first over depends-on edges with an explicit stack; stops once VISIT_LIMIT
        tasks have been expanded. */
    method WouldCycleDependency(child: Slug, parent: Slug) returns (cyc: bool)
      ensures cyc == Dependencies.WouldCycleDependency(deps, child, parent)
      ensures cyc ==> Reaches(DepEdges(deps), parent, child)
      ensures |ReachSet(DepEdges(deps), parent)| <= Dependencies.VISIT_LIMIT ==>
        (cyc <==> Reaches(DepEdges(deps), parent, child))
    {
      Dependencies.GuardExact(deps, child, parent);
      if child == parent { return true; }
      var visited: set<Slug> := {};
      var stack := [parent];
      ghost var universe := Dependencies.Universe(deps, parent);
      while |stack| > 0 && |visited| < Dependencies.VISIT_LIMIT
        invariant forall x :: x in stack ==> x in universe
        invariant Dependencies.Search(deps, child, visited, stack, universe)
               == Dependencies.Search(deps, child, {}, [parent], universe)
        decreases universe - visited, |stack|
      {
        var cur := stack[|stack| - 1];
        stack := stack[..|stack| - 1];
        if cur == child { return true; }
        if cur !in visited {
          visited := visited + {cur};
          var rows := ParentsOf(deps, cur);
          assert forall p :: p in rows ==> Edge(cur, p) in DepEdges(deps);
          stack := stack + rows;
        }
      }
      return false;
    }

    method AddTaskDependency(childArg: Slug, parentArg: Slug, now: string) returns (r: Outcome)
      modifies this`deps
      ensures (View(), r) == Dependencies.AddDependency(old(View()), childArg, parentArg, now)
    {
      var child, parent := Trim(childArg), Trim(parentArg);
      if child == "" || parent == "" { return Rejected(SlugRequired); }
      if child == parent { return Rejected(SelfReference); }
      var cyc := WouldCycleDependency(child, parent);
      if cyc { return Rejected(WouldCycle); }
      // INSERT OR IGNORE: a duplicate key is ignored, a broken reference is not.
      if child !in tasks || parent !in tasks { return Rejected(ForeignKey); }
      if parent !in ParentsOf(deps, child) {
        deps := deps + [Dep(child, parent, now)];
      }
      return Ok;
    }

    method RemoveTaskDependency(childArg: Slug, parentArg: Slug) returns (r: Outcome)
      modifies this`deps
      ensures (View(), r) == Dependencies.RemoveDependency(old(View()), childArg, parentArg)
    {
      var child, parent := Trim(childArg), Trim(parentArg);
      if child == "" || parent == "" { return Rejected(SlugRequired); }
      deps := RowsLeft(deps, child, Some(parent));
      return Ok;
    }

    method ClearTaskDependencies(childArg: Slug) returns (r: Outcome)
      modifies this`deps
      ensures (View(), r) == Dependencies.ClearDependencies(old(View()), childArg)
    {
      var child := Trim(childArg);
      if child == "" { return Rejected(SlugRequired); }
      deps := RowsLeft(deps, child, None);
      return Ok;
    }

    /** Follows parent_slug upwards for at most HOP_LIMIT tasks. */
    method WouldCycleHierarchy(child: Slug, parent: Slug) returns (cyc: bool)
      ensures cyc == Hierarchy.WouldCycleHierarchy(tasks, child, parent)
      ensures child != "" ==> (cyc <==> Hierarchy.Within(tasks, parent, Hierarchy.HOP_LIMIT, child))
    {
      if child != "" { Hierarchy.GuardExact(tasks, child, parent); }
      if child == parent { return true; }
      var cur := parent;
      var i := 0;
      while i < Hierarchy.HOP_LIMIT && cur != ""
        invariant 0 <= i <= Hierarchy.HOP_LIMIT
        invariant Hierarchy.GuardWalk(tasks, child, cur, i) == Hierarchy.GuardWalk(tasks, child, parent, 0)
      {
        if cur == child { return true; }
        if cur !in tasks { return false; }
        if tasks[cur].parent.None? { return false; }
        cur := tasks[cur].parent.value;
        i := i + 1;
      }
      return false;
    }

    method SetTaskHierarchyParent(childArg: Slug, parentArg: Slug, now: string) returns (r: Outcome)
      modifies this`tasks
      ensures (View(), r) == Hierarchy.SetParent(old(View()), childArg, parentArg, now)
    {
      var child, parent := Trim(childArg), Trim(parentArg);
      if child == "" || parent == "" { return Rejected(SlugRequired); }
      if child == parent { return Rejected(SelfReference); }
      if parent !in tasks { return Rejected(ParentNotFound); }
      var cyc := WouldCycleHierarchy(child, parent);
      if cyc { return Rejected(WouldCycle); }
      if child in tasks {
        tasks := tasks[child := tasks[child].(parent := Some(parent), updatedAt := now)];
      }
      return Ok;
    }

    method ClearTaskHierarchyParent(childArg: Slug, now: string) returns (r: Outcome)
      modifies this`tasks
      ensures (View(), r) == Hierarchy.ClearParent(old(View()), childArg, now)
    {
      var child := Trim(childArg);
      if child == "" { return Rejected(SlugRequired); }
      if child in tasks {
        tasks := tasks[child := tasks[child].(parent := None, updatedAt := now)];
      }
      return Ok;
    }

    /** Climbs to the top of the family, refusing to visit a task twice. */
    method TaskFamilyRoot(slugArg: Slug) returns (r: Families.FamilyRoot)
      ensures r == Families.TaskFamilyRoot(tasks, slugArg)
      ensures r.Root? && Hierarchy.Forest(tasks) && Families.LegalSlugs(tasks) && slugArg in tasks ==>
        Families.Top(tasks, r.slug) && Reaches(TreeEdges(tasks), slugArg, r.slug)
    {
      if Hierarchy.Forest(tasks) && Families.LegalSlugs(tasks) && slugArg in tasks {
        var _ := Families.FamilyRootIsTop(tasks, slugArg);
      }
      var slug := Trim(slugArg);
      if slug == "" { return Families.SlugMissing; }
      var current, first := slug, true;
      var seen: set<Slug> := {};
      while true
        invariant Families.Walk(tasks, current, seen, first) == Families.Walk(tasks, slug, {}, true)
        decreases tasks.Keys - seen
      {
        if current in seen { return Families.CycleAt(current); }
        if current !in tasks {
          return if first then Families.NotFound else Families.Root(current);
        }
        seen := seen + {current};
        first := false;
        var parent := tasks[current].parent;
        if parent.None? || Trim(parent.value) == "" { return Families.Root(current); }
        current := Trim(parent.value);
      }
    }

    /** The parents that are not finished, in scan order. */
    static method CollectPending(db: Db, parents: seq<Slug>)
      returns (pending: seq<StartGate.PendingParent>, allDone: bool)
      ensures pending == StartGate.PendingAmong(db, parents)
      ensures allDone <==> parents != [] && pending == []
      ensures allDone <==> parents != [] && forall p :: p in parents ==> StartGate.DoneAndThere(db, p)
      ensures forall x :: x in pending ==> x.slug in parents && StartGate.ReportsColumns(db, x)
      ensures forall p :: p in parents && !StartGate.DoneAndThere(db, p) ==> exists x :: x in pending && x.slug == p
    {
      pending, allDone := ScanParents(db, parents);
      StartGate.PendingColumns(db, parents);
    }

    static method ScanParents(db: Db, parents: seq<Slug>) returns (pending: seq<StartGate.PendingParent>, allDone: bool)
      ensures pending == StartGate.PendingAmong(db, parents)
      ensures allDone <==> parents != [] && pending == []
    {
      pending, allDone := [], |parents| > 0;
      var i := 0;
      while i < |parents|
        invariant 0 <= i <= |parents|
        invariant pending + StartGate.PendingAmong(db, parents[i..]) == StartGate.PendingAmong(db, parents)
        invariant allDone <==> |parents| > 0 && pending == []
      {
        PendingStep(db, parents, i);
        if !StartGate.FinishedParent(db, parents[i]) {
          pending := pending + [StartGate.Joined(db, parents[i])];
          allDone := false;
        }
        i := i + 1;
      }
    }

    static lemma PendingStep(db: Db, parents: seq<Slug>, i: nat)
      requires i < |parents|
      ensures StartGate.PendingAmong(db, parents[i..]) ==
        (if StartGate.FinishedParent(db, parents[i]) then [] else [StartGate.Joined(db, parents[i])])
          + StartGate.PendingAmong(db, parents[i + 1..])
    {
      assert parents[i..][1..] == parents[i + 1..];
    }

    static method NoteNamesOne(lower: string -> string, note: string, parents: seq<Slug>) returns (found: bool)
      ensures found <==> StartGate.NamesOne(lower, note, parents)
    {
      var text := lower(note);
      for i := 0 to |parents|
        invariant forall k :: 0 <= k < i ==> !(parents[k] != "" && Contains(text, lower(parents[k])))
      {
        if parents[i] != "" && Contains(text, lower(parents[i])) { return true; }
      }
      return false;
    }

    /** Collects the pending parents, then decides whether a stale note still counts. */
    method TaskStartBlockerFor(slug: Slug, lower: string -> string) returns (r: Option<StartGate.Blocker>)
      requires slug in tasks
      ensures r == StartGate.StartBlocker(View(), slug, lower)
      ensures r == None <==>
        StartGate.AllParentsFinished(View(), slug)
        && (StartGate.Note(tasks[slug]) == "" || StartGate.Excused(View(), slug, lower))
      ensures r == None ==> forall d :: d in deps && d.child == slug ==>
        d.parent in tasks && !tasks[d.parent].deleted && tasks[d.parent].status == Done
    {
      var db := View();
      StartGate.StartBlockerMeaning(db, slug, lower);
      StartGate.MayStartExactly(db, slug, lower);
      var waiting := StartGate.Note(tasks[slug]);
      var hasWaiting := waiting != "";
      var parents := ParentsOf(deps, slug);
      var pending, allDone := CollectPending(db, parents);
      if hasWaiting && allDone {
        var named := NoteNamesOne(lower, waiting, parents);
        if named { hasWaiting := false; }
      }
      if hasWaiting { return Some(StartGate.Waiting(waiting)); }
      if |pending| > 0 { return Some(StartGate.Dependency(pending)); }
      return None;
    }

    /** One transaction with deferred foreign keys; `saved` is what a rollback restores. */
    method RenameTask(src: Slug, dst: Slug, now: string) returns (r: Outcome)
      modifies this
      ensures (View(), r) == Rename.RenameTask(old(View()), src, dst, now)
    {
      if src == dst { return Ok; }
      if dst in tasks { return Rejected(SlugTaken); }
      var saved := View();
      tasks := Rename.MoveRow(tasks, src, dst, now);
      tasks := Rename.MoveParents(tasks, src, dst);
      tasks := Rename.MoveForks(tasks, src, dst);
      deps := Rename.MoveChildSide(deps, src, dst);
      deps := Rename.MoveParentSide(deps, src, dst);
      tags := Rename.MoveTags(tags, src, dst);
      links := Rename.MoveLinkSources(links, src, dst);
      links := Rename.MoveLinkTargets(links, src, dst);
      runtime := Rename.MoveRuntime(runtime, src, dst);
      var after := View();
      assert after == Rename.Cascade(saved, src, dst, now);
      if !ForeignKeys(after) {
        tasks, deps, tags, links, runtime := saved.tasks, saved.deps, saved.tags, saved.links, saved.runtime;
        return Rejected(ForeignKey);
      }
      return Ok;
    }
  }
}
