/** The start gate: what keeps a task from being started, and why waiting tasks never wait
    for each other for ever. */
module StartGate {
  import opened Text
  import opened Graphs
  import opened TaskTables

  datatype PendingParent = PendingParent(slug: Slug, status: Option<Status>, deleted: bool, missing: bool)

  datatype Blocker = Waiting(note: string) | Dependency(parents: seq<PendingParent>)

  predicate FinishedParent(db: Db, p: Slug) {
    p in db.tasks && !db.tasks[p].deleted && db.tasks[p].status == Done
  }

  /** One joined row of loadParentsForBlocker. */
  function Joined(db: Db, p: Slug): PendingParent {
    if p in db.tasks then PendingParent(p, Some(db.tasks[p].status), db.tasks[p].deleted, false)
    else PendingParent(p, None, false, true)
  }

  function PendingAmong(db: Db, parents: seq<Slug>): (r: seq<PendingParent>)
    ensures forall x :: x in r <==> x.slug in parents && x == Joined(db, x.slug) && !FinishedParent(db, x.slug)
  {
    if parents == [] then []
    else
      var rest := PendingAmong(db, parents[1..]);
      assert parents == [parents[0]] + parents[1..];
      if FinishedParent(db, parents[0]) then rest else [Joined(db, parents[0])] + rest
  }

  /** The note names one of the parents; `lower` is the case folding in use. */
  predicate NamesOne(lower: string -> string, note: string, parents: seq<Slug>) {
    exists p :: p in parents && p != "" && Contains(lower(note), lower(p))
  }

  /** The trimmed waiting_on text, empty when there is none. */
  function Note(task: Task): string {
    if task.waitingOn.Some? then Trim(task.waitingOn.value) else ""
  }

  /** TaskStartBlockerFor. */
  function StartBlocker(db: Db, slug: Slug, lower: string -> string): Option<Blocker>
    requires slug in db.tasks
  {
    var note := Note(db.tasks[slug]);
    var parents := ParentsOf(db.deps, slug);
    var pending := PendingAmong(db, parents);
    var stale := parents != [] && pending == [] && NamesOne(lower, note, parents);
    if note != "" && !stale then Some(Waiting(note))
    else if pending != [] then Some(Dependency(pending))
    else None
  }

  ghost predicate Waits(db: Db, child: Slug, parent: Slug) {
    Edge(child, parent) in DepEdges(db.deps)
  }

  ghost predicate AllParentsFinished(db: Db, slug: Slug) {
    forall p :: Waits(db, slug, p) ==> FinishedParent(db, p)
  }

  /** Some parent is named, by its slug, in the task's note. */
  ghost predicate Excused(db: Db, slug: Slug, lower: string -> string)
    requires slug in db.tasks
  {
    exists p :: Waits(db, slug, p) && p != "" && Contains(lower(Note(db.tasks[slug])), lower(p))
  }

  /** A task may start exactly when every parent is finished, and its note, if any, names
      one of them. */
  lemma StartBlockerMeaning(db: Db, slug: Slug, lower: string -> string)
    requires slug in db.tasks
    ensures StartBlocker(db, slug, lower) == None <==>
      AllParentsFinished(db, slug) && (Note(db.tasks[slug]) == "" || Excused(db, slug, lower))
    ensures var b := StartBlocker(db, slug, lower);
      b.Some? && b.value.Dependency? ==>
        forall x :: x in b.value.parents <==>
          Waits(db, slug, x.slug) && x == Joined(db, x.slug) && !FinishedParent(db, x.slug)
  {
    var parents := ParentsOf(db.deps, slug);
    var pending := PendingAmong(db, parents);
    assert forall p :: p in parents <==> Waits(db, slug, p);
    if pending == [] {
      forall p | p in parents ensures FinishedParent(db, p) {
        assert Joined(db, p) !in pending;
      }
    } else {
      assert pending[0] in pending;
    }
  }

  // ----- the verdict, column by column -----

  /** A row says that the child waits for the parent. */
  ghost predicate DependsOn(db: Db, child: Slug, parent: Slug) {
    exists d :: d in db.deps && d.child == child && d.parent == parent
  }

  lemma WaitsIsARow(db: Db, child: Slug, parent: Slug)
    ensures Waits(db, child, parent) <==> DependsOn(db, child, parent)
  {
    if Waits(db, child, parent) {
      var d :| d in db.deps && EdgeOf(d) == Edge(child, parent);
    }
    if d :| d in db.deps && d.child == child && d.parent == parent { assert EdgeOf(d) in DepEdges(db.deps); }
  }

  /** The parent is in the table, not deleted, and its status is done. */
  predicate DoneAndThere(db: Db, p: Slug) {
    p in db.tasks && db.tasks[p].deleted == false && db.tasks[p].status == Done
  }

  /** A task may start exactly when each row that makes it wait names a task that is in the table,
      not deleted and done, and its trimmed note is empty or contains, case folded, the slug of one
      of those tasks. */
  lemma MayStartExactly(db: Db, slug: Slug, lower: string -> string)
    requires slug in db.tasks
    ensures var task := db.tasks[slug];
      StartBlocker(db, slug, lower) == None <==>
        && (forall d :: d in db.deps && d.child == slug ==>
              d.parent in db.tasks && !db.tasks[d.parent].deleted && db.tasks[d.parent].status == Done)
        && (task.waitingOn == None || Trim(task.waitingOn.value) == ""
            || exists d :: d in db.deps && d.child == slug && d.parent != "" && Contains(lower(Trim(task.waitingOn.value)), lower(d.parent)))
  {
    StartBlockerMeaning(db, slug, lower);
    forall p ensures Waits(db, slug, p) <==> DependsOn(db, slug, p) { WaitsIsARow(db, slug, p); }
    if forall d :: d in db.deps && d.child == slug ==> DoneAndThere(db, d.parent) {
      forall p | Waits(db, slug, p) ensures FinishedParent(db, p) {
        var d :| d in db.deps && d.child == slug && d.parent == p;
      }
    }
    if AllParentsFinished(db, slug) {
      forall d | d in db.deps && d.child == slug ensures DoneAndThere(db, d.parent) {
        assert Waits(db, slug, d.parent);
      }
    }
    if db.tasks[slug].waitingOn.Some? { NotedParent(db, slug, lower); }
  }

  lemma NotedParent(db: Db, slug: Slug, lower: string -> string)
    requires slug in db.tasks && db.tasks[slug].waitingOn.Some?
    ensures Excused(db, slug, lower) <==>
      exists d :: d in db.deps && d.child == slug && d.parent != "" && Contains(lower(Trim(db.tasks[slug].waitingOn.value)), lower(d.parent))
  {
    if Excused(db, slug, lower) {
      var p :| Waits(db, slug, p) && p != "" && Contains(lower(Note(db.tasks[slug])), lower(p));
      WaitsIsARow(db, slug, p);
      var d :| d in db.deps && d.child == slug && d.parent == p;
    }
    if d :| d in db.deps && d.child == slug && d.parent != "" && Contains(lower(Trim(db.tasks[slug].waitingOn.value)), lower(d.parent)) {
      WaitsIsARow(db, slug, d.parent);
    }
  }

  /** The rows of the parent in what a blocked start reports. */
  predicate ReportsColumns(db: Db, x: PendingParent) {
    if x.slug in db.tasks then
      !x.missing && x.status == Some(db.tasks[x.slug].status) && x.deleted == db.tasks[x.slug].deleted
      && (x.deleted || x.status != Some(Done))
    else x.missing && x.status == None && !x.deleted
  }

  /** The parents left over, on the tables. */
  lemma PendingColumns(db: Db, parents: seq<Slug>)
    ensures var pending := PendingAmong(db, parents);
      && (pending == [] <==> forall p :: p in parents ==> DoneAndThere(db, p))
      && (forall x :: x in pending ==> x.slug in parents && ReportsColumns(db, x))
      && (forall p :: p in parents && !DoneAndThere(db, p) ==> exists x :: x in pending && x.slug == p)
  {
    var pending := PendingAmong(db, parents);
    forall p | p in parents && !DoneAndThere(db, p) ensures exists x :: x in pending && x.slug == p {
      assert Joined(db, p) in pending;
    }
    if pending != [] { assert pending[0] in pending; }
  }

  /** A start held up by dependencies reports exactly the parents that are missing, deleted or not
      done, each with its columns; one held up by a note reports the trimmed note. */
  lemma BlockerReports(db: Db, slug: Slug, lower: string -> string)
    requires slug in db.tasks && StartBlocker(db, slug, lower).Some?
    ensures match StartBlocker(db, slug, lower).value
      case Waiting(note) =>
        db.tasks[slug].waitingOn.Some? && note == Trim(db.tasks[slug].waitingOn.value) && note != ""
      case Dependency(parents) =>
        && parents != []
        && (forall x :: x in parents ==> DependsOn(db, slug, x.slug) && ReportsColumns(db, x))
        && (forall d :: d in db.deps && d.child == slug && !DoneAndThere(db, d.parent) ==>
              exists x :: x in parents && x.slug == d.parent)
  {
    StartBlockerMeaning(db, slug, lower);
    match StartBlocker(db, slug, lower).value {
      case Waiting(_) =>
      case Dependency(parents) =>
        forall x | x in parents ensures DependsOn(db, slug, x.slug) && ReportsColumns(db, x) {
          WaitsIsARow(db, slug, x.slug);
        }
        forall d | d in db.deps && d.child == slug && !DoneAndThere(db, d.parent)
          ensures exists x :: x in parents && x.slug == d.parent
        {
          WaitsIsARow(db, slug, d.parent);
          assert Joined(db, d.parent) in parents;
        }
    }
  }

  // ----- progress -----

  predicate Open(db: Db, s: Slug) {
    s in db.tasks && db.tasks[s].status != Done
  }

  function OpenTasks(db: Db): set<Slug> {
    set s | s in db.tasks && Open(db, s)
  }

  /** No open task carries a note, or depends on a task that is deleted or missing. */
  ghost predicate Unhindered(db: Db) {
    forall s :: Open(db, s) ==>
      && Note(db.tasks[s]) == ""
      && forall p :: Waits(db, s, p) ==> p in db.tasks && !db.tasks[p].deleted
  }

  /** No dependency deadlock: while any task is open, some open task may start. */
  lemma NoDeadlock(db: Db, lower: string -> string) returns (s: Slug)
    requires Acyclic(DepEdges(db.deps)) && Unhindered(db) && OpenTasks(db) != {}
    ensures Open(db, s) && StartBlocker(db, s, lower) == None
  {
    var any :| any in OpenTasks(db);
    s := SinkInside(DepEdges(db.deps), OpenTasks(db), any);
    forall p | Waits(db, s, p) ensures FinishedParent(db, p) {
      assert Edge(s, p).parent !in OpenTasks(db);
    }
    StartBlockerMeaning(db, s, lower);
  }

  function Finish(db: Db, s: Slug): Db
    requires s in db.tasks
  {
    db.(tasks := db.tasks[s := db.tasks[s].(status := Done)])
  }

  /** Tasks taken up one at a time, each open and unblocked at its turn, then finished. */
  ghost predicate Schedule(db: Db, order: seq<Slug>, lower: string -> string)
    decreases |order|
  {
    order == [] ||
      (Open(db, order[0]) && StartBlocker(db, order[0], lower) == None
       && Schedule(Finish(db, order[0]), order[1..], lower))
  }

  ghost function AfterSchedule(db: Db, order: seq<Slug>, lower: string -> string): Db
    requires Schedule(db, order, lower)
    decreases |order|
  {
    if order == [] then db else AfterSchedule(Finish(db, order[0]), order[1..], lower)
  }

  lemma FinishEffect(db: Db, s: Slug)
    requires Open(db, s)
    ensures |OpenTasks(Finish(db, s))| == |OpenTasks(db)| - 1
    ensures Unhindered(db) ==> Unhindered(Finish(db, s))
    ensures forall x :: Open(Finish(db, s), x) <==> Open(db, x) && x != s
  {
    assert OpenTasks(Finish(db, s)) == OpenTasks(db) - {s};
    if Unhindered(db) {
      forall x | Open(Finish(db, s), x)
        ensures Note(Finish(db, s).tasks[x]) == ""
        ensures forall p :: Waits(Finish(db, s), x, p) ==> p in Finish(db, s).tasks && !Finish(db, s).tasks[p].deleted
      {
        assert Open(db, x);
        forall p | Waits(Finish(db, s), x, p) ensures p in db.tasks && !db.tasks[p].deleted {
          assert Waits(db, x, p);
        }
      }
    }
  }

  /** Every way of starting and finishing unblocked tasks ends with all of them done: each
      turn closes one task, and until none is open another turn is possible. */
  lemma {:induction false} SchedulesFinishEverything(db: Db, order: seq<Slug>, lower: string -> string)
    requires Acyclic(DepEdges(db.deps)) && Unhindered(db) && Schedule(db, order, lower)
    ensures var after := AfterSchedule(db, order, lower);
      && |order| + |OpenTasks(after)| == |OpenTasks(db)|
      && (OpenTasks(after) != {} ==> exists s :: Schedule(db, order + [s], lower))
    decreases |order|
  {
    if order == [] {
      if OpenTasks(db) != {} {
        var s := NoDeadlock(db, lower);
        assert Schedule(db, [s], lower);
        assert order + [s] == [s];
      }
    } else {
      FinishEffect(db, order[0]);
      SchedulesFinishEverything(Finish(db, order[0]), order[1..], lower);
      if OpenTasks(AfterSchedule(db, order, lower)) != {} {
        var s :| Schedule(Finish(db, order[0]), order[1..] + [s], lower);
        assert (order + [s])[1..] == order[1..] + [s];
        assert Schedule(db, order + [s], lower);
      }
    }
  }

  /** In every schedule a task comes after all the parents that were still open. */
  lemma {:induction false} SchedulesRespectDependencies(db: Db, order: seq<Slug>, lower: string -> string, i: nat, p: Slug)
    requires Schedule(db, order, lower) && i < |order| && Waits(db, order[i], p)
    ensures FinishedParent(db, p) || p in order[..i]
    decreases |order|
  {
    if i == 0 {
      UnblockedParents(db, order[0], lower, p);
    } else {
      var next, rest := Finish(db, order[0]), order[1..];
      assert Waits(next, rest[i - 1], p);
      SchedulesRespectDependencies(next, rest, lower, i - 1, p);
      assert order[..i] == [order[0]] + rest[..i - 1];
      FinishedBefore(db, order[0], p);
    }
  }

  /** The same on the tables: in any schedule each parent of a task was in the table, done and not
      deleted at the start, or comes earlier. */
  lemma SchedulesFinishParentsFirst(db: Db, order: seq<Slug>, lower: string -> string, i: nat, d: Dep)
    requires Schedule(db, order, lower) && i < |order| && d in db.deps && d.child == order[i]
    ensures (d.parent in db.tasks && !db.tasks[d.parent].deleted && db.tasks[d.parent].status == Done) || d.parent in order[..i]
  {
    WaitsIsARow(db, order[i], d.parent);
    SchedulesRespectDependencies(db, order, lower, i, d.parent);
  }

  /** What a schedule leaves: its tasks are done, and nothing else has changed. */
  lemma {:induction false} ScheduleLeaves(db: Db, order: seq<Slug>, lower: string -> string)
    requires Schedule(db, order, lower)
    ensures var after := AfterSchedule(db, order, lower);
      && after == db.(tasks := after.tasks) && after.tasks.Keys == db.tasks.Keys
      && (forall s :: s in db.tasks ==>
            after.tasks[s] == if s in order then db.tasks[s].(status := Done) else db.tasks[s])
      && (forall s :: s in order ==> s in db.tasks && db.tasks[s].status != Done)
    decreases |order|
  {
    if order != [] {
      ScheduleLeaves(Finish(db, order[0]), order[1..], lower);
      assert order == [order[0]] + order[1..];
      assert forall s :: s in order <==> s == order[0] || s in order[1..];
    }
  }

  /** No dependency deadlock, on the tables: while some task is not done, and such tasks carry no
      note and wait only for tasks that are there and not deleted, one of them may start. */
  lemma SomeTaskMayStart(db: Db, lower: string -> string, open: Slug)
    requires Acyclic(DepEdges(db.deps)) && open in db.tasks && db.tasks[open].status != Done
    requires forall s :: s in db.tasks && db.tasks[s].status != Done ==>
      db.tasks[s].waitingOn == None || Trim(db.tasks[s].waitingOn.value) == ""
    requires forall d :: d in db.deps && d.child in db.tasks && db.tasks[d.child].status != Done ==>
      d.parent in db.tasks && !db.tasks[d.parent].deleted
    ensures exists s :: s in db.tasks && db.tasks[s].status != Done && StartBlocker(db, s, lower) == None
  {
    assert open in OpenTasks(db);
    forall s, p | Open(db, s) && Waits(db, s, p) ensures p in db.tasks && !db.tasks[p].deleted {
      WaitsIsARow(db, s, p);
      var d :| d in db.deps && d.child == s && d.parent == p;
    }
    var s := NoDeadlock(db, lower);
  }

  lemma UnblockedParents(db: Db, s: Slug, lower: string -> string, p: Slug)
    requires s in db.tasks && StartBlocker(db, s, lower) == None && Waits(db, s, p)
    ensures FinishedParent(db, p)
  {
    StartBlockerMeaning(db, s, lower);
  }

  lemma FinishedBefore(db: Db, s: Slug, p: Slug)
    requires s in db.tasks
    ensures FinishedParent(Finish(db, s), p) ==> p == s || FinishedParent(db, p)
  {
  }
}
