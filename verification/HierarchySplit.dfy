/** The one-shot migration that separated subtask hierarchy from blocking dependencies. Each
    statement commits on its own, so a stop can fall between any two of them, and every open
    of the database starts the sequence again. */
module HierarchySplit {
  import opened Text
  import opened Graphs

  datatype LegacyTask = LegacyTask(parent: Option<string>, createdAt: string)

  /** deps maps each (child, parent) key of task_dependencies to its created_at. */
  datatype Store = Store(tasks: map<Slug, LegacyTask>, deps: map<Edge, string>, split: bool)

  /** TRIM(parent_slug) = '': SQL trims spaces only. */
  predicate Blank(p: string) {
    forall c :: c in p ==> c == ' '
  }

  /** A parent column the backfill turns into a dependency. */
  predicate LegacyParent(tasks: map<Slug, LegacyTask>, s: Slug) {
    s in tasks && tasks[s].parent.Some? && !Blank(tasks[s].parent.value) && tasks[s].parent.value != s
  }

  function LegacyEdge(tasks: map<Slug, LegacyTask>, s: Slug): Edge
    requires s in tasks && tasks[s].parent.Some?
  {
    Edge(s, tasks[s].parent.value)
  }

  function LegacyEdges(tasks: map<Slug, LegacyTask>): set<Edge> {
    set s | s in tasks && LegacyParent(tasks, s) :: LegacyEdge(tasks, s)
  }

  predicate Mirrors(st: Store, s: Slug) {
    s in st.tasks && st.tasks[s].parent.Some? && LegacyEdge(st.tasks, s) in st.deps
  }

  /** INSERT OR IGNORE ... SELECT, skipped once the marker is set. */
  function Backfill(st: Store): Store {
    if st.split then st
    else
      var added := map e | e in LegacyEdges(st.tasks) :: st.tasks[e.child].createdAt;
      st.(deps := added + st.deps)
  }

  /** UPDATE tasks SET parent_slug = NULL where it mirrors a dependency. */
  function NullMirrors(st: Store): Store {
    if st.split then st
    else st.(tasks := map s | s in st.tasks :: if Mirrors(st, s) then st.tasks[s].(parent := None) else st.tasks[s])
  }

  function SetMarker(st: Store): Store {
    st.(split := true)
  }

  function Open(st: Store): Store {
    SetMarker(NullMirrors(Backfill(st)))
  }

  /** An open stopped after so many of its statements. */
  function CutOpen(st: Store, statements: nat): Store {
    if statements == 0 then st
    else if statements == 1 then Backfill(st)
    else if statements == 2 then NullMirrors(Backfill(st))
    else Open(st)
  }

  function CutOpens(st: Store, cuts: seq<nat>): Store
    decreases |cuts|
  {
    if cuts == [] then st else CutOpens(CutOpen(st, cuts[0]), cuts[1..])
  }

  lemma BackfillTwice(st: Store)
    ensures Backfill(Backfill(st)) == Backfill(st)
  {
  }

  /** No parent column left for either statement to act on. */
  ghost predicate Settled(st: Store) {
    forall s :: s in st.tasks ==> !LegacyParent(st.tasks, s) && !Mirrors(st, s)
  }

  lemma NullingSettles(st: Store)
    requires !st.split
    ensures Settled(NullMirrors(Backfill(st)))
  {
    var filled := Backfill(st);
    var nulled := NullMirrors(filled);
    forall s | s in nulled.tasks ensures !LegacyParent(nulled.tasks, s) && !Mirrors(nulled, s) {
      if LegacyParent(st.tasks, s) {
        assert LegacyEdge(st.tasks, s) in LegacyEdges(st.tasks);
        assert Mirrors(filled, s);
      }
    }
  }

  lemma SettledStays(st: Store)
    requires Settled(st)
    ensures Backfill(st) == st && NullMirrors(st) == st
  {
    assert LegacyEdges(st.tasks) == {};
    if !st.split {
      assert Backfill(st).deps == st.deps;
      assert NullMirrors(st).tasks == st.tasks;
    }
  }

  lemma NothingLeftToDo(st: Store)
    ensures var nulled := NullMirrors(Backfill(st)); Backfill(nulled) == nulled && NullMirrors(nulled) == nulled
  {
    if !st.split {
      NullingSettles(st);
      SettledStays(NullMirrors(Backfill(st)));
    }
  }

  lemma CutOpenHarmless(st: Store, statements: nat)
    ensures Open(CutOpen(st, statements)) == Open(st)
  {
    BackfillTwice(st);
    NothingLeftToDo(st);
  }

  /** However many opens were cut short, and wherever, the next complete one reaches the
      state an uninterrupted first open would have reached. */
  lemma {:induction false} InterruptionsHarmless(st: Store, cuts: seq<nat>)
    ensures Open(CutOpens(st, cuts)) == Open(st)
    decreases |cuts|
  {
    if cuts != [] {
      InterruptionsHarmless(CutOpen(st, cuts[0]), cuts[1..]);
      CutOpenHarmless(st, cuts[0]);
    }
  }

  /** What the migration does: every legacy parent becomes a dependency and leaves the parent
      column, older dependencies keep their rows, and nothing else becomes one. A parent
      column survives exactly when it is blank or names the task itself. */
  lemma SplitMeaning(st: Store)
    requires !st.split && (forall e :: e in st.deps ==> e.child != e.parent && !Blank(e.parent))
    ensures var after := Open(st);
      && after.split && after.tasks.Keys == st.tasks.Keys
      && after.deps.Keys == st.deps.Keys + LegacyEdges(st.tasks)
      && (forall e :: e in st.deps ==> after.deps[e] == st.deps[e])
      && (forall s :: s in st.tasks ==>
           after.tasks[s].parent == if LegacyParent(st.tasks, s) then None else st.tasks[s].parent)
  {
    var filled := Backfill(st);
    forall s | s in st.tasks && st.tasks[s].parent.Some? ensures Mirrors(filled, s) <==> LegacyParent(st.tasks, s) {
      if LegacyParent(st.tasks, s) { assert LegacyEdge(st.tasks, s) in LegacyEdges(st.tasks); }
      if Mirrors(filled, s) && LegacyEdge(st.tasks, s) !in st.deps {
        assert LegacyEdge(st.tasks, s) in LegacyEdges(st.tasks);
      }
    }
  }

  /** A character that SQL's TRIM keeps. */
  predicate HasText(p: string) {
    exists i :: 0 <= i < |p| && p[i] != ' '
  }

  lemma NotBlankHasText(p: string)
    ensures HasText(p) <==> !Blank(p)
  {
    if HasText(p) {
      var i :| 0 <= i < |p| && p[i] != ' ';
      assert p[i] in p;
    }
    if !Blank(p) {
      var c :| c in p && c != ' ';
      var i :| 0 <= i < |p| && p[i] == c;
    }
  }

  /** The migration, row by row: a parent column with some text but blanks, naming another task,
      becomes a dependency stamped with the task's creation time, unless the pair was there with
      its own stamp, and is emptied; every other parent column and every creation time stays. */
  lemma SplitLeaves(st: Store, s: Slug)
    requires !st.split && (forall e :: e in st.deps ==> e.child != e.parent && !Blank(e.parent)) && s in st.tasks
    ensures var after, parent := Open(st), st.tasks[s].parent;
      && s in after.tasks && after.tasks[s].createdAt == st.tasks[s].createdAt
      && if parent.Some? && HasText(parent.value) && parent.value != s then
           && after.tasks[s].parent == None && Edge(s, parent.value) in after.deps
           && after.deps[Edge(s, parent.value)] ==
                if Edge(s, parent.value) in st.deps then st.deps[Edge(s, parent.value)] else st.tasks[s].createdAt
         else after.tasks[s].parent == parent
  {
    SplitMeaning(st);
    assert Open(st).deps == Backfill(st).deps;
    if st.tasks[s].parent.Some? {
      NotBlankHasText(st.tasks[s].parent.value);
      if LegacyParent(st.tasks, s) {
        var e := LegacyEdge(st.tasks, s);
        assert e in LegacyEdges(st.tasks);
        assert Backfill(st).deps[e] == if e in st.deps then st.deps[e] else st.tasks[e.child].createdAt;
      }
    }
  }

  /** And no other dependency appears. */
  lemma SplitAddsOnly(st: Store, e: Edge)
    requires !st.split && (forall e :: e in st.deps ==> e.child != e.parent && !Blank(e.parent))
    ensures e in Open(st).deps ==>
      e in st.deps || (e.child in st.tasks && st.tasks[e.child].parent == Some(e.parent) && e.child != e.parent && HasText(e.parent))
  {
    SplitMeaning(st);
    if e in LegacyEdges(st.tasks) {
      var s :| s in st.tasks && LegacyParent(st.tasks, s) && LegacyEdge(st.tasks, s) == e;
      NotBlankHasText(e.parent);
    }
  }

  // ----- life after the split -----

  datatype Step =
    | Reopen(statements: nat)
    | AddDependency(child: Slug, parent: Slug, now: string)
    | RemoveDependency(child: Slug, parent: Slug)
    | ClearDependencies(child: Slug)
    | SetParent(child: Slug, under: Option<Slug>)
    | AddTask(slug: Slug, now: string)
    | RenameTo(src: Slug, dst: Slug)

  /** The rename goes through: the new slug is free, and, as the foreign keys see to, no
      dependency mentions it. */
  ghost predicate Renames(st: Store, src: Slug, dst: Slug) {
    src in st.tasks && dst !in st.tasks && !Mentions(st.deps.Keys, dst)
  }

  function MovedRef(src: Slug, dst: Slug, ref: Option<Slug>): Option<Slug> {
    if ref == Some(src) then Some(dst) else ref
  }

  ghost function Moved(st: Store, src: Slug, dst: Slug): Store {
    var slugs := st.tasks.Keys - {src} + {dst};
    st.(tasks := map s | s in slugs && (if s == dst then src else s) in st.tasks ::
                   var row := st.tasks[if s == dst then src else s]; row.(parent := MovedRef(src, dst, row.parent)),
        deps := map e | e in RelabelEdges(src, dst, st.deps.Keys) && RelabelEdge(dst, src, e) in st.deps ::
                  st.deps[RelabelEdge(dst, src, e)])
  }

  ghost function Apply(st: Store, step: Step): Store {
    match step
    case Reopen(statements) => CutOpen(st, statements)
    case AddDependency(child, parent, now) =>
      if child == parent || Edge(child, parent) in st.deps then st
      else st.(deps := st.deps[Edge(child, parent) := now])
    case RemoveDependency(child, parent) => st.(deps := st.deps - {Edge(child, parent)})
    case ClearDependencies(child) => st.(deps := map e | e in st.deps && e.child != child :: st.deps[e])
    case SetParent(child, under) =>
      if child in st.tasks then st.(tasks := st.tasks[child := st.tasks[child].(parent := under)]) else st
    case AddTask(slug, now) => if slug in st.tasks then st else st.(tasks := st.tasks[slug := LegacyTask(None, now)])
    case RenameTo(src, dst) => if Renames(st, src, dst) then Moved(st, src, dst) else st
  }

  ghost function Run(st: Store, steps: seq<Step>): Store
    decreases |steps|
  {
    if steps == [] then st else Run(Apply(st, steps[0]), steps[1..])
  }

  /** The name an edge goes by after one step. */
  ghost function Renamed(st: Store, step: Step, e: Edge): Edge {
    if step.RenameTo? && Renames(st, step.src, step.dst) then RelabelEdge(step.src, step.dst, e) else e
  }

  /** An edge that was there before the steps, or is added by one of them, under the name that
      the later renames give it. */
  ghost predicate Declared(st: Store, steps: seq<Step>, present: set<Edge>, e: Edge)
    decreases |steps|
  {
    if steps == [] then e in present
    else Declared(Apply(st, steps[0]), steps[1..], Known(st, steps[0], present), e)
  }

  /** The edges accounted for after one step: the renamed ones, and one that is added. */
  ghost function Known(st: Store, step: Step, present: set<Edge>): set<Edge> {
    (set e | e in present :: Renamed(st, step, e))
      + (if step.AddDependency? then {Edge(step.child, step.parent)} else {})
  }

  lemma StepAddsOnlyDeclared(st: Store, step: Step, present: set<Edge>)
    requires st.split && st.deps.Keys <= present
    ensures Apply(st, step).split && Apply(st, step).deps.Keys <= Known(st, step, present)
  {
    forall e | e in Apply(st, step).deps ensures e in Known(st, step, present) {
      if step.RenameTo? && Renames(st, step.src, step.dst) {
        assert e in RelabelEdges(step.src, step.dst, st.deps.Keys);
        var b :| b in st.deps && RelabelEdge(step.src, step.dst, b) == e;
        assert Renamed(st, step, b) == e;
      } else if e in st.deps {
        assert Renamed(st, step, e) == e;
      }
    }
  }

  lemma {:induction false} RunAddsOnlyDeclared(st: Store, steps: seq<Step>, present: set<Edge>)
    requires st.split && st.deps.Keys <= present
    ensures Run(st, steps).split
    ensures forall e :: e in Run(st, steps).deps ==> Declared(st, steps, present, e)
    decreases |steps|
  {
    if steps != [] {
      StepAddsOnlyDeclared(st, steps[0], present);
      RunAddsOnlyDeclared(Apply(st, steps[0]), steps[1..], Known(st, steps[0], present));
    }
  }

  /** Once split, always split: in any later run of opens, complete or cut short, and of
      commands, every dependency is one that was there or was added explicitly, renamed along
      with its tasks; and no open touches a parent column or a dependency again. */
  lemma HierarchyNeverBlocks(st: Store, steps: seq<Step>)
    requires st.split
    ensures Run(st, steps).split
    ensures forall e :: e in Run(st, steps).deps ==> Declared(st, steps, st.deps.Keys, e)
    ensures (forall i :: 0 <= i < |steps| ==> steps[i].Reopen?) ==> Run(st, steps) == st
  {
    RunAddsOnlyDeclared(st, steps, st.deps.Keys);
    if forall i :: 0 <= i < |steps| ==> steps[i].Reopen? { OpensChangeNothing(st, steps); }
  }

  lemma {:induction false} OpensChangeNothing(st: Store, steps: seq<Step>)
    requires st.split && forall i :: 0 <= i < |steps| ==> steps[i].Reopen?
    ensures Run(st, steps) == st
    decreases |steps|
  {
    if steps != [] {
      assert Apply(st, steps[0]) == st;
      OpensChangeNothing(st, steps[1..]);
    }
  }

  /** What Declared comes down to: the edge is traced forward, through every later rename, from
      an edge that was there at the start or from one that a step added. */
  lemma {:induction false} DeclaredIsTraced(st: Store, steps: seq<Step>, present: set<Edge>, e: Edge)
    ensures Declared(st, steps, present, e) <==>
      (exists f :: f in present && Traced(st, steps, f) == e)
      || (exists i :: 0 <= i < |steps| && AddedAt(st, steps, i, e))
    decreases |steps|
  {
    if steps == [] {
      assert forall f :: Traced(st, steps, f) == f;
    } else {
      var next, rest, known := Apply(st, steps[0]), steps[1..], Known(st, steps[0], present);
      DeclaredIsTraced(next, rest, known, e);
      forall f ensures Traced(st, steps, f) == Traced(next, rest, Renamed(st, steps[0], f)) {}
      forall i | 0 <= i < |rest| ensures AddedAt(next, rest, i, e) <==> AddedAt(st, steps, i + 1, e) {
        assert rest[i] == steps[i + 1] && rest[..i + 1] == steps[..i + 2][1..] && rest[i + 1..] == steps[i + 2..];
        assert Run(st, steps[..i + 2]) == Run(next, rest[..i + 1]);
      }
      AddedFirst(st, steps, e);
      if f :| f in known && Traced(next, rest, f) == e {
        if f !in (set g | g in present :: Renamed(st, steps[0], g)) {
          assert AddedAt(st, steps, 0, e);
        } else {
          var g :| g in present && Renamed(st, steps[0], g) == f;
          assert Traced(st, steps, g) == e;
        }
      }
      if f :| f in present && Traced(st, steps, f) == e {
        assert Renamed(st, steps[0], f) in known;
      }
      if i :| 0 <= i < |steps| && AddedAt(st, steps, i, e) {
        if i == 0 {
          assert Edge(steps[0].child, steps[0].parent) in known;
        } else {
          assert AddedAt(next, rest, i - 1, e);
        }
      }
    }
  }

  lemma AddedFirst(st: Store, steps: seq<Step>, e: Edge)
    requires steps != []
    ensures AddedAt(st, steps, 0, e) <==>
      steps[0].AddDependency? && Traced(Apply(st, steps[0]), steps[1..], Edge(steps[0].child, steps[0].parent)) == e
  {
    assert steps[..1] == [steps[0]];
    assert Run(st, [steps[0]]) == Run(Apply(st, steps[0]), []);
  }

  ghost function Traced(st: Store, steps: seq<Step>, e: Edge): Edge
    decreases |steps|
  {
    if steps == [] then e else Traced(Apply(st, steps[0]), steps[1..], Renamed(st, steps[0], e))
  }

  ghost predicate AddedAt(st: Store, steps: seq<Step>, i: nat, e: Edge)
    requires i < |steps|
  {
    steps[i].AddDependency?
    && Traced(Run(st, steps[..i + 1]), steps[i + 1..], Edge(steps[i].child, steps[i].parent)) == e
  }

  // ----- the migrations as they run -----

  class Database {
    var tasks: map<Slug, LegacyTask>
    var deps: map<Edge, string>
    var split: bool

    function View(): Store
      reads this
    {
      Store(tasks, deps, split)
    }

    constructor (st: Store)
      ensures View() == st
    {
      tasks, deps, split := st.tasks, st.deps, st.split;
    }

    /** migrateTaskDependencies, its INSERT written out row by row. */
    method MigrateTaskDependencies()
      modifies this`deps
      ensures View() == Backfill(old(View()))
    {
      if split { return; }
      ghost var goal := (map e | e in LegacyEdges(tasks) :: tasks[e.child].createdAt) + deps;
      var todo := set s | s in tasks && LegacyParent(tasks, s);
      while todo != {}
        invariant forall s :: s in todo ==> LegacyParent(tasks, s)
        invariant forall s :: LegacyParent(tasks, s) && s !in todo ==> LegacyEdge(tasks, s) in deps
        invariant forall e :: e in deps ==> e in goal && deps[e] == goal[e]
        invariant forall e :: e in old(deps) ==> e in deps
        decreases todo
      {
        var s :| s in todo;
        todo := todo - {s};
        var e := LegacyEdge(tasks, s);
        if e !in deps { deps := deps[e := tasks[s].createdAt]; }
      }
      assert forall e :: e in goal ==> e in LegacyEdges(tasks) || e in old(deps);
      forall e | e in goal ensures e in deps {
        if e in LegacyEdges(tasks) {
          assert LegacyParent(tasks, e.child) && e == LegacyEdge(tasks, e.child);
        }
      }
      assert deps.Keys == goal.Keys;
      assert deps == goal;
    }

    /** migrateSplitHierarchyDependency. */
    method MigrateSplitHierarchyDependency()
      modifies this
      ensures View() == SetMarker(NullMirrors(old(View())))
    {
      if split { return; }
      ghost var before := View();
      var todo := tasks.Keys;
      while todo != {}
        invariant deps == before.deps && !split && tasks.Keys == before.tasks.Keys && todo <= tasks.Keys
        invariant forall s :: s in tasks ==>
          tasks[s] == if s !in todo && Mirrors(before, s) then before.tasks[s].(parent := None) else before.tasks[s]
        decreases todo
      {
        var s :| s in todo;
        todo := todo - {s};
        if tasks[s].parent.Some? && Edge(s, tasks[s].parent.value) in deps {
          tasks := tasks[s := tasks[s].(parent := None)];
        }
      }
      assert tasks == NullMirrors(before).tasks;
      split := true;
    }

    method OpenDatabase()
      modifies this
      ensures View() == Open(old(View()))
    {
      MigrateTaskDependencies();
      MigrateSplitHierarchyDependency();
    }
  }
}
