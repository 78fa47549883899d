/** Whole runs of task commands, and what every state they reach satisfies. */
module TaskRuns {
  import opened Text
  import opened Graphs
  import opened TaskTables
  import opened StartGate
  import Dependencies
  import Hierarchy
  import Families
  import Rename

  datatype Command =
    | Create(slug: Slug)
    | AddDependency(child: Slug, parent: Slug)
    | RemoveDependency(child: Slug, parent: Slug)
    | ClearDependencies(child: Slug)
    | SetParent(child: Slug, parent: Slug)
    | ClearParent(child: Slug)
    | RenameTo(src: Slug, dst: Slug)
    | FinishTask(slug: Slug)

  /** validateRenameSlug: what `flow update task --slug` accepts. */
  predicate ValidRenameSlug(s: Slug) {
    Trim(s) != "" && '/' !in Trim(s) && '\\' !in Trim(s)
  }

  function Apply(db: Db, c: Command, now: string): Db {
    match c
    case Create(slug) =>
      if slug == "" || slug in db.tasks then db
      else db.(tasks := db.tasks[slug := Task(Backlog, None, None, None, false, now)])
    case AddDependency(child, parent) => Dependencies.AddDependency(db, child, parent, now).0
    case RemoveDependency(child, parent) => Dependencies.RemoveDependency(db, child, parent).0
    case ClearDependencies(child) => Dependencies.ClearDependencies(db, child).0
    case SetParent(child, parent) => Hierarchy.SetParent(db, child, parent, now).0
    case ClearParent(child) => Hierarchy.ClearParent(db, child, now).0
    case RenameTo(src, dst) => if ValidRenameSlug(dst) then Rename.RenameTask(db, src, dst, now).0 else db
    case FinishTask(slug) => if slug in db.tasks then Finish(db, slug) else db
  }

  ghost predicate Sound(db: Db) {
    && Constraints(db) && "" !in db.tasks
    && Acyclic(DepEdges(db.deps)) && Hierarchy.Forest(db.tasks)
  }

  /** The bounded guards look far enough for this command. */
  ghost predicate InView(db: Db, c: Command) {
    && (c.AddDependency? ==> |ReachSet(DepEdges(db.deps), Trim(c.parent))| <= Dependencies.VISIT_LIMIT)
    && (c.SetParent? ==>
         forall n: nat :: n >= Hierarchy.HOP_LIMIT ==> Hierarchy.Ancestor(db.tasks, Trim(c.parent), n) != Some(Trim(c.child)))
  }

  /** A table of at most HOP_LIMIT tasks is always in view. */
  lemma SmallTablesInView(db: Db, c: Command)
    requires Sound(db) && |db.tasks| <= Hierarchy.HOP_LIMIT
    ensures InView(db, c)
  {
    if c.AddDependency? {
      var parent := Trim(c.parent);
      var reach := ReachSet(DepEdges(db.deps), parent);
      forall b | b in reach ensures b in db.tasks.Keys + {parent} {
        if b in Parents(DepEdges(db.deps)) {
          var e :| e in DepEdges(db.deps) && e.parent == b;
          var d :| d in db.deps && EdgeOf(d) == e;
        }
      }
      Dependencies.Cardinality(reach, db.tasks.Keys + {parent});
    }
    if c.SetParent? {
      forall n: nat | n >= Hierarchy.HOP_LIMIT
        ensures Hierarchy.Ancestor(db.tasks, Trim(c.parent), n) != Some(Trim(c.child))
      {
        if Hierarchy.Ancestor(db.tasks, Trim(c.parent), n).Some? {
          assert Trim(c.parent) in db.tasks;
          Hierarchy.ChainShorterThanTable(db, Trim(c.parent), n);
        }
      }
    }
  }

  lemma AddDependencySound(db: Db, c: Command, now: string)
    requires Sound(db) && c.AddDependency? && InView(db, c)
    ensures Sound(Apply(db, c, now))
  {
    Dependencies.AddDependencyMeaning(db, c.child, c.parent, now);
    var child, parent := Trim(c.child), Trim(c.parent);
    Dependencies.GuardExact(db.deps, child, parent);
    AddEdgeAcyclic(DepEdges(db.deps), Edge(child, parent));
  }

  lemma RemovalSound(db: Db, c: Command, now: string)
    requires Sound(db) && (c.RemoveDependency? || c.ClearDependencies?)
    ensures Sound(Apply(db, c, now))
  {
    if c.RemoveDependency? {
      Dependencies.RemovalMeaning(db, c.child, c.parent);
    } else {
      Dependencies.ClearingMeaning(db, c.child);
    }
    SubgraphAcyclic(DepEdges(Apply(db, c, now).deps), DepEdges(db.deps));
  }

  /** Exchanging the task table keeps everything that is not about the hierarchy when no task
      goes and the rows still refer to tasks. */
  lemma TasksExchanged(db: Db, tasks: map<Slug, Task>)
    requires Sound(db) && "" !in tasks && Hierarchy.Forest(tasks)
    requires forall s :: s in db.tasks ==> s in tasks
    requires forall s :: s in tasks ==> Known(db, tasks[s].parent) && Known(db, tasks[s].forkedFrom)
    ensures Sound(db.(tasks := tasks))
  {
  }

  lemma ParentExchanged(db: Db, child: Slug, parent: Option<Slug>, now: string)
    requires Sound(db) && child in db.tasks && Known(db, parent)
    requires Hierarchy.Forest(Hierarchy.WithParent(db, child, parent, now).tasks)
    ensures Sound(Hierarchy.WithParent(db, child, parent, now))
  {
    TasksExchanged(db, Hierarchy.WithParent(db, child, parent, now).tasks);
  }

  lemma TreeCommandSound(db: Db, c: Command, now: string)
    requires Sound(db) && (c.SetParent? || c.ClearParent?) && InView(db, c)
    ensures Sound(Apply(db, c, now))
  {
    if c.SetParent? {
      SetParentSound(db, c.child, c.parent, now);
    } else {
      Hierarchy.ClearParentMeaning(db, c.child, now);
      if Trim(c.child) in db.tasks && Trim(c.child) != "" { ParentExchanged(db, Trim(c.child), None, now); }
    }
  }

  lemma SetParentSound(db: Db, childArg: Slug, parentArg: Slug, now: string)
    requires Sound(db)
    requires forall n: nat :: n >= Hierarchy.HOP_LIMIT ==>
      Hierarchy.Ancestor(db.tasks, Trim(parentArg), n) != Some(Trim(childArg))
    ensures Sound(Hierarchy.SetParent(db, childArg, parentArg, now).0)
  {
    Hierarchy.SetParentForestExact(db, childArg, parentArg, now);
    var child, parent := Trim(childArg), Trim(parentArg);
    var (after, outcome) := Hierarchy.SetParent(db, childArg, parentArg, now);
    if after != db { ParentExchanged(db, child, Some(parent), now); }
  }

  lemma RenameSound(db: Db, c: Command, now: string)
    requires Sound(db) && c.RenameTo?
    ensures Sound(Apply(db, c, now))
  {
    Rename.RenameKeepsConstraints(db, c.src, c.dst, now);
    Rename.RenameIsIsomorphism(db, c.src, c.dst, now);
    Rename.RenameSucceedsExactly(db, c.src, c.dst, now);
    TrimFixesTrimmed("");
  }

  lemma CreateSound(db: Db, slug: Slug, now: string)
    requires Sound(db) && slug != "" && slug !in db.tasks
    ensures Sound(db.(tasks := db.tasks[slug := Task(Backlog, None, None, None, false, now)]))
  {
    var tasks := db.tasks[slug := Task(Backlog, None, None, None, false, now)];
    SameParentsSameTree(db.tasks, tasks);
    TasksExchanged(db, tasks);
  }

  lemma FinishSound(db: Db, slug: Slug)
    requires Sound(db) && slug in db.tasks
    ensures Sound(Finish(db, slug))
  {
    SameParentsSameTree(db.tasks, Finish(db, slug).tasks);
    TasksExchanged(db, Finish(db, slug).tasks);
  }

  lemma CommandSound(db: Db, c: Command, now: string)
    requires Sound(db) && InView(db, c)
    ensures Sound(Apply(db, c, now))
  {
    match c
    case AddDependency(_, _) => AddDependencySound(db, c, now);
    case RemoveDependency(_, _) => RemovalSound(db, c, now);
    case ClearDependencies(_) => RemovalSound(db, c, now);
    case SetParent(_, _) => TreeCommandSound(db, c, now);
    case ClearParent(_) => TreeCommandSound(db, c, now);
    case RenameTo(_, _) => RenameSound(db, c, now);
    case Create(slug) => if slug != "" && slug !in db.tasks { CreateSound(db, slug, now); }
    case FinishTask(slug) => if slug in db.tasks { FinishSound(db, slug); }
  }

  function Run(db: Db, commands: seq<Command>, now: string): Db
    decreases |commands|
  {
    if commands == [] then db else Run(Apply(db, commands[0], now), commands[1..], now)
  }

  /** Every command of the run finds its guard in view. */
  ghost predicate RunInView(db: Db, commands: seq<Command>, now: string)
    decreases |commands|
  {
    commands == [] || (InView(db, commands[0]) && RunInView(Apply(db, commands[0], now), commands[1..], now))
  }

  /** Over every run of task commands whose guards look far enough, the dependency graph
      stays acyclic, the hierarchy stays a forest and every constraint holds. */
  lemma {:induction false} RunsStaySound(db: Db, commands: seq<Command>, now: string)
    requires Sound(db) && RunInView(db, commands, now)
    ensures Sound(Run(db, commands, now))
    decreases |commands|
  {
    if commands != [] {
      CommandSound(db, commands[0], now);
      RunsStaySound(Apply(db, commands[0], now), commands[1..], now);
    }
  }

  const EMPTY: Db := Db(map[], [], {}, {}, map[], map[])

  /** What holds in every state reached from an empty database: no deadlock among unhindered
      tasks, and, as long as no slug carries surrounding white space, families that
      partition the tasks. */
  lemma ReachableStates(commands: seq<Command>, now: string, lower: string -> string)
    requires RunInView(EMPTY, commands, now)
    ensures var db := Run(EMPTY, commands, now);
      && Sound(db)
      && (Families.LegalSlugs(db.tasks) ==> Families.FamiliesAgree(db.tasks))
      && (Unhindered(db) && OpenTasks(db) != {} ==> exists s :: Open(db, s) && StartBlocker(db, s, lower) == None)
  {
    assert DepEdges(EMPTY.deps) == {} && TreeEdges(EMPTY.tasks) == {};
    assert Sound(EMPTY);
    RunsStaySound(EMPTY, commands, now);
    var db := Run(EMPTY, commands, now);
    if Families.LegalSlugs(db.tasks) { Families.LegalFamiliesAgree(db.tasks); }
    if Unhindered(db) && OpenTasks(db) != {} { var _ := NoDeadlock(db, lower); }
  }
}
