/** The playbook scheduler: one tick-due pass over the due playbooks, and the runs it starts. */
module PlaybookScheduler {
  import opened Text

  type Slug = string

  /** Seconds; RFC 3339 text without fractions. */
  type Time = int

  /** next_fire_at: NULL, text that does not parse, or a time. */
  datatype Fire = Unarmed | Garbled | At(time: Time)

  datatype Book = Book(spec: Option<string>, paused: bool, next: Fire, archived: bool, deleted: bool,
                       lastFired: Option<Time>, lastRun: Option<Slug>)

  /** A task row of kind playbook_run: its playbook and its auto_run columns. */
  datatype Run = Run(playbook: Slug, archived: bool, deleted: bool, status: Option<string>, pid: Option<int>)

  type Books = map<Slug, Book>

  type Runs = map<Slug, Run>

  /** The tables, and the processes alive. */
  datatype World = World(books: Books, runs: Runs, alive: set<int>)

  /** schedule.Next: an error, or the next fire time. */
  type Schedule = (string, Time) -> Option<Time>

  ghost predicate StrictlyLater(next: Schedule) {
    forall spec, now :: next(spec, now).Some? ==> next(spec, now).value > now
  }

  // ----- what is due -----

  predicate Due(book: Book, now: Time) {
    && !book.archived && !book.deleted && book.spec.Some? && !book.paused
    && book.next.At? && book.next.time <= now
  }

  ghost predicate Ascending(slugs: seq<Slug>) {
    forall i, j :: 0 <= i < j < |slugs| ==> Less(slugs[i], slugs[j])
  }

  lemma AscendingDistinct(slugs: seq<Slug>, i: nat, j: nat)
    requires Ascending(slugs) && i < |slugs| && j < |slugs| && slugs[i] == slugs[j]
    ensures i == j
  {
    LessIrreflexive(slugs[i]);
  }

  /** The due list, on the columns: exactly the playbooks that are neither archived nor deleted, have
      a schedule that is not paused, and whose next fire is a time no later than now. */
  lemma DueListColumns(books: Books, t: Time, due: seq<Slug>, s: Slug)
    requires DueList(books, t, due)
    ensures s in due <==>
      && s in books && books[s].archived == false && books[s].deleted == false
      && books[s].spec != None && books[s].paused == false
      && books[s].next.At? && books[s].next.time <= t
    ensures forall i, j :: 0 <= i < j < |due| ==> Less(due[i], due[j])
  {
  }

  // ----- runs in flight -----

  predicate Listed(run: Run) {
    !run.archived && !run.deleted
  }

  predicate Running(run: Run, alive: set<int>) {
    run.status == Some("running") && run.pid.Some? && run.pid.value in alive
  }

  predicate Flying(runs: Runs, r: Slug, playbook: Slug, alive: set<int>) {
    r in runs && runs[r].playbook == playbook && Listed(runs[r]) && Running(runs[r], alive)
  }

  /** playbookRunInFlight. */
  ghost predicate InFlight(runs: Runs, playbook: Slug, alive: set<int>) {
    exists r :: r in runs && Flying(runs, r, playbook, alive)
  }

  /** In flight, on the columns: some run of the playbook, neither archived nor deleted, says running
      and has a process number that lives. */
  lemma InFlightColumns(runs: Runs, playbook: Slug, alive: set<int>)
    ensures InFlight(runs, playbook, alive) <==>
      exists r :: r in runs && runs[r].playbook == playbook && runs[r].archived == false && runs[r].deleted == false
        && runs[r].status == Some("running") && runs[r].pid.Some? && runs[r].pid.value in alive
  {
    if InFlight(runs, playbook, alive) {
      var r :| r in runs && Flying(runs, r, playbook, alive);
    }
    if r :| r in runs && runs[r].playbook == playbook && runs[r].archived == false && runs[r].deleted == false && runs[r].status == Some("running") && runs[r].pid.Some? && runs[r].pid.value in alive {
      assert Flying(runs, r, playbook, alive);
    }
  }

  // ----- one playbook -----

  /** What firing comes to: no run row, a run that was not started, or a started one. */
  datatype Launch = NoRun | NotStarted(run: Slug) | Started(run: Slug, pid: int)

  /** What the world does while one playbook is handled: the clock, the processes that have
      ended since, and what firing would come to. */
  datatype Choice = Choice(now: Time, ended: set<int>, launch: Launch)

  function NextSet(books: Books, slug: Slug, next: Time): Books {
    if slug in books then books[slug := books[slug].(next := At(next))] else books
  }

  function Paused(books: Books, slug: Slug): Books {
    if slug in books && books[slug].spec.Some? then books[slug := books[slug].(paused := true, next := Unarmed)]
    else books
  }

  function Recorded(books: Books, slug: Slug, now: Time, next: Time, run: Slug): Books {
    if slug in books then books[slug := books[slug].(lastFired := Some(now), lastRun := Some(run), next := At(next))]
    else books
  }

  /** createPlaybookRun, refused when the slug is taken. */
  function WithRun(runs: Runs, launch: Launch, playbook: Slug): Runs {
    if launch.NoRun? || launch.run in runs then runs
    else
      runs[launch.run := Run(playbook, false, false,
                             if launch.Started? then Some("running") else None,
                             if launch.Started? then Some(launch.pid) else None)]
  }

  predicate Starts(runs: Runs, launch: Launch) {
    launch.Started? && launch.run !in runs
  }

  ghost predicate Launches(w: World, slug: Slug, c: Choice, next: Schedule)
    requires slug in w.books && w.books[slug].spec.Some?
  {
    && next(w.books[slug].spec.value, c.now).Some?
    && !InFlight(w.runs, slug, w.alive - c.ended)
    && Starts(w.runs, c.launch)
  }

  /** firePlaybookSchedule. */
  ghost function Fired(w: World, slug: Slug, c: Choice, next: Schedule): World {
    var alive := w.alive - c.ended;
    if slug !in w.books || w.books[slug].spec.None? then w.(alive := alive)
    else
      var n := next(w.books[slug].spec.value, c.now);
      if n.None? then World(Paused(w.books, slug), w.runs, alive)
      else if InFlight(w.runs, slug, alive) then World(NextSet(w.books, slug, n.value), w.runs, alive)
      else if !Starts(w.runs, c.launch) then
        World(NextSet(w.books, slug, n.value), WithRun(w.runs, c.launch, slug), alive)
      else
        World(Recorded(w.books, slug, c.now, n.value, c.launch.run), WithRun(w.runs, c.launch, slug), alive + {c.launch.pid})
  }

  // ----- a pass -----

  /** The world after the first n due playbooks. */
  ghost function Passed(w: World, due: seq<Slug>, n: nat, choice: nat -> Choice, next: Schedule): World
    requires n <= |due|
  {
    if n == 0 then w else Fired(Passed(w, due, n - 1, choice, next), due[n - 1], choice(n - 1), next)
  }

  /** The due playbooks of a pass begun at t, in the order of their slugs. */
  ghost predicate DueList(books: Books, t: Time, due: seq<Slug>) {
    && Ascending(due)
    && forall s :: s in due <==> s in books && Due(books[s], t)
  }

  predicate SameDefinition(a: Book, b: Book) {
    a.archived == b.archived && a.deleted == b.deleted && a.spec == b.spec
  }

  lemma FiredTouchesOne(w: World, slug: Slug, c: Choice, next: Schedule)
    ensures var after := Fired(w, slug, c, next);
      && after.books.Keys == w.books.Keys
      && (forall s :: s in w.books && s != slug ==> after.books[s] == w.books[s])
      && (forall s :: s in w.books ==> SameDefinition(after.books[s], w.books[s]))
      && (forall r :: r in w.runs ==> r in after.runs && after.runs[r] == w.runs[r])
      && (forall r :: r in after.runs && r !in w.runs ==> after.runs[r].playbook == slug)
  {
  }

  /** What the pass has left alone after n playbooks: every other playbook, and every run that
      was there; new runs belong to the playbooks handled. */
  lemma {:induction false} PassTouchesDue(w: World, due: seq<Slug>, n: nat, choice: nat -> Choice, next: Schedule)
    requires n <= |due|
    ensures var after := Passed(w, due, n, choice, next);
      && after.books.Keys == w.books.Keys
      && (forall s :: s in w.books && s !in due[..n] ==> after.books[s] == w.books[s])
      && (forall s :: s in w.books ==> SameDefinition(after.books[s], w.books[s]))
      && (forall r :: r in w.runs ==> r in after.runs && after.runs[r] == w.runs[r])
      && (forall r :: r in after.runs && r !in w.runs ==> after.runs[r].playbook in due[..n])
  {
    if n > 0 {
      PassTouchesDue(w, due, n - 1, choice, next);
      FiredTouchesOne(Passed(w, due, n - 1, choice, next), due[n - 1], choice(n - 1), next);
      assert due[..n] == due[..n - 1] + [due[n - 1]];
    }
  }

  lemma NotYet(due: seq<Slug>, i: nat)
    requires Ascending(due) && i < |due|
    ensures due[i] !in due[..i]
  {
    if k :| 0 <= k < i && due[k] == due[i] { AscendingDistinct(due, k, i); }
  }

  /** When its turn comes a due playbook and its runs are still what they were at the start. */
  lemma TurnComes(w: World, t: Time, due: seq<Slug>, i: nat, choice: nat -> Choice, next: Schedule)
    requires DueList(w.books, t, due) && i < |due|
    ensures var before := Passed(w, due, i, choice, next);
      && due[i] in w.books && due[i] in before.books && before.books[due[i]] == w.books[due[i]]
      && Due(w.books[due[i]], t)
      && (forall alive :: InFlight(before.runs, due[i], alive) <==> InFlight(w.runs, due[i], alive))
  {
    PassTouchesDue(w, due, i, choice, next);
    NotYet(due, i);
    assert due[i] in due;
    var before := Passed(w, due, i, choice, next);
    forall alive ensures InFlight(before.runs, due[i], alive) <==> InFlight(w.runs, due[i], alive) {
      forall r ensures Flying(before.runs, r, due[i], alive) <==> Flying(w.runs, r, due[i], alive) {}
    }
  }

  /** Whether the pass launches a run of its i-th playbook. */
  ghost predicate LaunchedAt(w: World, due: seq<Slug>, i: nat, choice: nat -> Choice, next: Schedule)
    requires i < |due|
  {
    var before := Passed(w, due, i, choice, next);
    due[i] in before.books && before.books[due[i]].spec.Some? && Launches(before, due[i], choice(i), next)
  }

  /** The processes alive when the i-th playbook is looked at. */
  ghost function AliveAt(w: World, due: seq<Slug>, i: nat, choice: nat -> Choice, next: Schedule): set<int>
    requires i < |due|
  {
    Passed(w, due, i, choice, next).alive - choice(i).ended
  }

  /** How many of the first n due playbooks the pass launches. */
  ghost function LaunchCount(w: World, due: seq<Slug>, n: nat, choice: nat -> Choice, next: Schedule): nat
    requires n <= |due|
  {
    if n == 0 then 0
    else LaunchCount(w, due, n - 1, choice, next) + (if LaunchedAt(w, due, n - 1, choice, next) then 1 else 0)
  }

  /** A pass launches a due playbook exactly when its spec still parses, no run that was listed
      for it at the start is running with a live process, and firing works. */
  lemma LaunchedExactly(w: World, t: Time, due: seq<Slug>, i: nat, choice: nat -> Choice, next: Schedule)
    requires DueList(w.books, t, due) && i < |due|
    ensures LaunchedAt(w, due, i, choice, next) <==>
      && due[i] in w.books && w.books[due[i]].spec.Some?
      && next(w.books[due[i]].spec.value, choice(i).now).Some?
      && !InFlight(w.runs, due[i], AliveAt(w, due, i, choice, next))
      && Starts(Passed(w, due, i, choice, next).runs, choice(i).launch)
  {
    TurnComes(w, t, due, i, choice, next);
  }

  /** A playbook is launched at most once in a pass, and only if it was due. */
  lemma LaunchedOnce(w: World, t: Time, due: seq<Slug>, i: nat, j: nat, choice: nat -> Choice, next: Schedule)
    requires DueList(w.books, t, due) && i < |due| && j < |due|
    requires LaunchedAt(w, due, i, choice, next) && LaunchedAt(w, due, j, choice, next) && due[i] == due[j]
    ensures i == j && Due(w.books[due[i]], t)
  {
    AscendingDistinct(due, i, j);
    TurnComes(w, t, due, i, choice, next);
  }

  /** The row of a handled playbook: a spec that no longer parses pauses it; a launch is
      recorded with its time and run; and in every other case only the next fire moves on. */
  function HandledRow(book: Book, launched: bool, c: Choice, n: Option<Time>): Book
    requires launched ==> c.launch.Started?
  {
    if n.None? then book.(paused := true, next := Unarmed)
    else if launched then book.(lastFired := Some(c.now), lastRun := Some(c.launch.run), next := At(n.value))
    else book.(next := At(n.value))
  }

  lemma FiredRow(w: World, slug: Slug, c: Choice, next: Schedule)
    requires slug in w.books && w.books[slug].spec.Some?
    ensures Launches(w, slug, c, next) ==> c.launch.Started?
    ensures var after, launched := Fired(w, slug, c, next), Launches(w, slug, c, next);
      && slug in after.books
      && after.books[slug] == HandledRow(w.books[slug], launched, c, next(w.books[slug].spec.value, c.now))
      && (launched ==> InTable(after.runs, c.launch, slug) && c.launch.pid in after.alive)
  {
  }

  predicate InTable(runs: Runs, launch: Launch, playbook: Slug) {
    launch.Started? && launch.run in runs
    && runs[launch.run] == Run(playbook, false, false, Some("running"), Some(launch.pid))
  }

  /** At the end of the pass each due playbook's row is its starting row handled once, and each
      launched run is in the table with its process. */
  lemma PassRow(w: World, t: Time, due: seq<Slug>, i: nat, choice: nat -> Choice, next: Schedule)
    requires DueList(w.books, t, due) && i < |due|
    ensures LaunchedAt(w, due, i, choice, next) ==> choice(i).launch.Started?
    ensures var after, launched := Passed(w, due, |due|, choice, next), LaunchedAt(w, due, i, choice, next);
      && due[i] in w.books && due[i] in after.books && w.books[due[i]].spec.Some?
      && after.books[due[i]] == HandledRow(w.books[due[i]], launched, choice(i), next(w.books[due[i]].spec.value, choice(i).now))
      && (launched ==> InTable(after.runs, choice(i).launch, due[i]))
  {
    TurnComes(w, t, due, i, choice, next);
    FiredRow(Passed(w, due, i, choice, next), due[i], choice(i), next);
    assert Passed(w, due, i + 1, choice, next) == Fired(Passed(w, due, i, choice, next), due[i], choice(i), next);
    RestKeeps(w, due, i + 1, |due|, due[i], choice, next);
  }

  /** What is done for one playbook is not undone by the rest of the pass. */
  lemma {:induction false} RestKeeps(w: World, due: seq<Slug>, m: nat, n: nat, slug: Slug, choice: nat -> Choice, next: Schedule)
    requires m <= n <= |due| && Ascending(due) && m > 0 && slug == due[m - 1]
    ensures var mid, after := Passed(w, due, m, choice, next), Passed(w, due, n, choice, next);
      && after.books.Keys == mid.books.Keys
      && (slug in mid.books ==> after.books[slug] == mid.books[slug])
      && (forall r :: r in mid.runs ==> r in after.runs && after.runs[r] == mid.runs[r])
    decreases n - m
  {
    if m < n {
      RestKeeps(w, due, m, n - 1, slug, choice, next);
      FiredTouchesOne(Passed(w, due, n - 1, choice, next), due[n - 1], choice(n - 1), next);
      if due[n - 1] == slug { AscendingDistinct(due, m - 1, n - 1); }
    }
  }

  lemma FiredIsNotDue(w: World, slug: Slug, c: Choice, next: Schedule, t: Time)
    requires StrictlyLater(next) && t <= c.now && slug in w.books && w.books[slug].spec.Some?
    ensures !Due(Fired(w, slug, c, next).books[slug], t)
  {
  }

  ghost predicate NoneDue(books: Books, slugs: seq<Slug>, t: Time) {
    forall s :: s in slugs && s in books ==> !Due(books[s], t)
  }

  lemma OneMoreHandled(w: World, slug: Slug, c: Choice, next: Schedule, t: Time, handled: seq<Slug>)
    requires StrictlyLater(next) && t <= c.now && slug in w.books && w.books[slug].spec.Some?
    requires NoneDue(w.books, handled, t)
    ensures NoneDue(Fired(w, slug, c, next).books, handled + [slug], t)
  {
    FiredTouchesOne(w, slug, c, next);
    FiredIsNotDue(w, slug, c, next, t);
  }

  lemma TurnHasSpec(w: World, t: Time, due: seq<Slug>, i: nat, choice: nat -> Choice, next: Schedule)
    requires DueList(w.books, t, due) && i < |due|
    ensures var before := Passed(w, due, i, choice, next).books; due[i] in before && before[due[i]].spec.Some?
  {
    TurnComes(w, t, due, i, choice, next);
  }

  ghost predicate HaveSpecs(w: World, due: seq<Slug>, n: nat, choice: nat -> Choice, next: Schedule)
    requires n <= |due|
  {
    n == 0 ||
      var before := Passed(w, due, n - 1, choice, next).books;
      HaveSpecs(w, due, n - 1, choice, next) && due[n - 1] in before && before[due[n - 1]].spec.Some?
  }

  lemma {:induction false} TurnsHaveSpecs(w: World, t: Time, due: seq<Slug>, n: nat, choice: nat -> Choice, next: Schedule)
    requires DueList(w.books, t, due) && n <= |due|
    ensures HaveSpecs(w, due, n, choice, next)
  {
    if n > 0 {
      TurnsHaveSpecs(w, t, due, n - 1, choice, next);
      TurnHasSpec(w, t, due, n - 1, choice, next);
    }
  }

  lemma {:induction false} HandledAreNotDue(w: World, t: Time, due: seq<Slug>, n: nat, choice: nat -> Choice, next: Schedule)
    requires n <= |due| && HaveSpecs(w, due, n, choice, next) && StrictlyLater(next) && forall i :: t <= choice(i).now
    ensures NoneDue(Passed(w, due, n, choice, next).books, due[..n], t)
  {
    if n > 0 {
      HandledAreNotDue(w, t, due, n - 1, choice, next);
      OneMoreHandled(Passed(w, due, n - 1, choice, next), due[n - 1], choice(n - 1), next, t, due[..n - 1]);
      assert due[..n] == due[..n - 1] + [due[n - 1]];
    }
  }

  /** After a pass begun at t no playbook is due at t. */
  lemma NothingLeftDue(w: World, t: Time, due: seq<Slug>, choice: nat -> Choice, next: Schedule)
    requires DueList(w.books, t, due) && StrictlyLater(next) && forall i :: t <= choice(i).now
    ensures forall s :: s in Passed(w, due, |due|, choice, next).books ==>
      !Due(Passed(w, due, |due|, choice, next).books[s], t)
  {
    PassTouchesDue(w, due, |due|, choice, next);
    TurnsHaveSpecs(w, t, due, |due|, choice, next);
    HandledAreNotDue(w, t, due, |due|, choice, next);
    assert due[..|due|] == due;
  }

  // ----- one run in flight, over every history -----

  ghost predicate OneFlying(w: World) {
    forall a, b, p :: Flying(w.runs, a, p, w.alive) && Flying(w.runs, b, p, w.alive) ==> a == b
  }

  /** A listed row that says it is running as this process. */
  predicate Carries(runs: Runs, r: Slug, pid: int) {
    r in runs && Listed(runs[r]) && runs[r].status == Some("running") && runs[r].pid == Some(pid)
  }

  /** Each row that still carries the number is the only one of its playbook that carries it
      or is in flight. */
  ghost predicate CarriersApart(runs: Runs, alive: set<int>, pid: int) {
    forall r, s :: Carries(runs, r, pid) && r != s && (Carries(runs, s, pid) || Flying(runs, s, runs[r].playbook, alive)) ==>
      runs[s].playbook != runs[r].playbook
  }

  /** What may be asked before a process of this number is started for a run of the playbook:
      among the other rows, those that still carry the number keep to themselves, and, if the
      run is listed, none of its playbook carries the number or is in flight. */
  ghost predicate StartSafe(others: Runs, alive: set<int>, pid: int, playbook: Slug, listed: bool) {
    && CarriersApart(others, alive, pid)
    && (listed ==> forall s :: s in others && others[s].playbook == playbook ==>
          !Carries(others, s, pid) && !Flying(others, s, playbook, alive))
  }

  ghost predicate OneAmong(runs: Runs, alive: set<int>) {
    forall a, b, p :: Flying(runs, a, p, alive) && Flying(runs, b, p, alive) ==> a == b
  }

  lemma FlyingWith(runs: Runs, s: Slug, p: Slug, alive: set<int>, pid: int)
    ensures Flying(runs, s, p, alive + {pid}) <==> Flying(runs, s, p, alive) || (Carries(runs, s, pid) && runs[s].playbook == p)
  {
  }

  /** When a new process takes a number, exactly. */
  lemma BirthExactly(runs: Runs, alive: set<int>, pid: int)
    requires OneAmong(runs, alive)
    ensures OneAmong(runs, alive + {pid}) <==> CarriersApart(runs, alive, pid)
  {
    forall s, p ensures Flying(runs, s, p, alive + {pid}) <==>
      Flying(runs, s, p, alive) || (Carries(runs, s, pid) && runs[s].playbook == p)
    {
      FlyingWith(runs, s, p, alive, pid);
    }
    if OneAmong(runs, alive + {pid}) {
      forall r, s | Carries(runs, r, pid) && r != s && (Carries(runs, s, pid) || Flying(runs, s, runs[r].playbook, alive))
        ensures runs[s].playbook != runs[r].playbook
      {
        assert Flying(runs, r, runs[r].playbook, alive + {pid});
        assert Flying(runs, s, runs[s].playbook, alive + {pid});
      }
    }
    if CarriersApart(runs, alive, pid) {
      forall a, b, p | Flying(runs, a, p, alive + {pid}) && Flying(runs, b, p, alive + {pid}) ensures a == b {
        assert a == b || Carries(runs, a, pid) || Carries(runs, b, pid);
      }
    }
  }

  lemma OthersOne(runs: Runs, r: Slug, alive: set<int>)
    requires OneAmong(runs, alive)
    ensures OneAmong(runs - {r}, alive)
  {
    forall s, p | Flying(runs - {r}, s, p, alive) ensures Flying(runs, s, p, alive) {}
  }

  /** One row put beside rows that fly one to a playbook. */
  lemma RowExactly(others: Runs, r: Slug, run: Run, alive: set<int>)
    requires r !in others
    ensures OneAmong(others[r := run], alive) <==>
      && OneAmong(others, alive)
      && (Listed(run) && Running(run, alive) ==> forall s :: !Flying(others, s, run.playbook, alive))
  {
    var runs := others[r := run];
    forall s, p ensures Flying(runs, s, p, alive) <==>
      (if s == r then run.playbook == p && Listed(run) && Running(run, alive) else Flying(others, s, p, alive)) {}
    if OneAmong(runs, alive) {
      forall a, b, p | Flying(others, a, p, alive) && Flying(others, b, p, alive) ensures a == b {
        assert Flying(runs, a, p, alive) && Flying(runs, b, p, alive);
      }
      forall s | Flying(others, s, run.playbook, alive) && Listed(run) && Running(run, alive) ensures false {
        assert Flying(runs, s, run.playbook, alive) && Flying(runs, r, run.playbook, alive);
      }
    }
  }

  /** Starting a process for a run, exactly. */
  lemma StartExactly(runs: Runs, r: Slug, run: Run, alive: set<int>, pid: int)
    requires OneAmong(runs, alive) && run.status == Some("running") && run.pid == Some(pid)
    ensures OneAmong(runs[r := run], alive + {pid}) <==> StartSafe(runs - {r}, alive, pid, run.playbook, Listed(run))
  {
    var others := runs - {r};
    OthersOne(runs, r, alive);
    BirthExactly(others, alive, pid);
    RowExactly(others, r, run, alive + {pid});
    assert others[r := run] == runs[r := run];
    forall s ensures Flying(others, s, run.playbook, alive + {pid}) <==>
      Flying(others, s, run.playbook, alive) || (Carries(others, s, pid) && others[s].playbook == run.playbook)
    {
      FlyingWith(others, s, run.playbook, alive, pid);
    }
  }

  lemma EndsKeepOne(runs: Runs, alive: set<int>, ended: set<int>)
    requires OneAmong(runs, alive)
    ensures OneAmong(runs, alive - ended)
  {
    forall r, p | Flying(runs, r, p, alive - ended) ensures Flying(runs, r, p, alive) {}
  }

  ghost predicate FireSafe(w: World, slug: Slug, c: Choice, next: Schedule) {
    slug in w.books && w.books[slug].spec.Some? && Launches(w, slug, c, next) ==>
      StartSafe(w.runs, w.alive - c.ended, c.launch.pid, slug, true)
  }

  /** One playbook's turn leaves its playbooks with one run in flight each exactly when the
      number of the process it starts, if it starts one, is carried by no listed running row
      of this playbook, and by none of another beside a second or a run in flight. */
  lemma FiredKeepsExactly(w: World, slug: Slug, c: Choice, next: Schedule)
    requires OneFlying(w)
    ensures OneFlying(Fired(w, slug, c, next)) <==> FireSafe(w, slug, c, next)
  {
    var after, alive := Fired(w, slug, c, next), w.alive - c.ended;
    assert OneAmong(w.runs, w.alive);
    EndsKeepOne(w.runs, w.alive, c.ended);
    if slug in w.books && w.books[slug].spec.Some? && Launches(w, slug, c, next) {
      StartExactly(w.runs, c.launch.run, after.runs[c.launch.run], alive, c.launch.pid);
      assert w.runs - {c.launch.run} == w.runs;
      assert OneAmong(after.runs, after.alive) <==> OneFlying(after);
    } else {
      NotStartedKeeps(w, slug, c, next);
    }
  }

  lemma NotStartedKeeps(w: World, slug: Slug, c: Choice, next: Schedule)
    requires OneAmong(w.runs, w.alive - c.ended)
    requires slug in w.books && w.books[slug].spec.Some? ==> !Launches(w, slug, c, next)
    ensures OneFlying(Fired(w, slug, c, next))
  {
    var after, alive := Fired(w, slug, c, next), w.alive - c.ended;
    forall r, p | Flying(after.runs, r, p, after.alive) ensures Flying(w.runs, r, p, alive) {}
  }

  /** What can happen to the runs: one playbook's turn in a pass, `flow do --auto` on a run that
      is there, the end of a run and its reconciliation, the rollback of a failed autonomous
      launch, archiving or deleting and the way back, and processes ending and starting. */
  datatype Event =
    | Fire(slug: Slug, choice: Choice)
    | HandStart(run: Slug, pid: int)
    | Finalize(run: Slug, status: string)
    | Reconcile(run: Slug)
    | Withdraw(run: Slug)
    | Shelve(run: Slug, delete: bool)
    | Restore(run: Slug, delete: bool)
    | End(pids: set<int>)
    | Birth(pid: int)

  /** finalizeAutoRun. */
  function Finalized(runs: Runs, r: Slug, status: string): Runs {
    if r in runs then runs[r := runs[r].(status := Some(status), pid := None)] else runs
  }

  /** reconcileAutoRun. */
  function Reconciled(runs: Runs, r: Slug, alive: set<int>): Runs {
    if r in runs && runs[r].status == Some("running") && !Running(runs[r], alive) then
      runs[r := runs[r].(status := Some("dead"), pid := None)]
    else runs
  }

  /** Archiving or deleting a run, or the way back. */
  function Shelved(runs: Runs, r: Slug, delete: bool, on: bool): Runs {
    if r in runs then
      runs[r := if delete then runs[r].(deleted := on) else runs[r].(archived := on)]
    else runs
  }

  /** cmdDo --auto refuses a run whose process lives. */
  predicate HandStarts(w: World, r: Slug) {
    r in w.runs && !Running(w.runs[r], w.alive)
  }

  ghost function After(w: World, e: Event, next: Schedule): World {
    match e
    case Fire(slug, choice) => Fired(w, slug, choice, next)
    case HandStart(r, pid) =>
      if HandStarts(w, r) then
        World(w.books, w.runs[r := w.runs[r].(status := Some("running"), pid := Some(pid))], w.alive + {pid})
      else w
    case Finalize(r, status) => w.(runs := Finalized(w.runs, r, status))
    case Reconcile(r) => w.(runs := Reconciled(w.runs, r, w.alive))
    case Withdraw(r) => if r in w.runs then w.(runs := w.runs[r := w.runs[r].(status := None, pid := None)]) else w
    case Shelve(r, delete) => w.(runs := Shelved(w.runs, r, delete, true))
    case Restore(r, delete) => w.(runs := Shelved(w.runs, r, delete, false))
    case End(pids) => w.(alive := w.alive - pids)
    case Birth(pid) => w.(alive := w.alive + {pid})
  }

  /** What makes an event harmless; a matter of the rows and processes before it. */
  ghost predicate Safe(w: World, e: Event, next: Schedule) {
    match e
    case Fire(slug, choice) => FireSafe(w, slug, choice, next)
    case HandStart(r, pid) =>
      HandStarts(w, r) ==> StartSafe(w.runs - {r}, w.alive, pid, w.runs[r].playbook, Listed(w.runs[r]))
    case Restore(r, delete) =>
      r in w.runs && Running(w.runs[r], w.alive) && !(if delete then w.runs[r].archived else w.runs[r].deleted) ==>
        forall s :: s != r ==> !Flying(w.runs, s, w.runs[r].playbook, w.alive)
    case Birth(pid) => CarriersApart(w.runs, w.alive, pid)
    case _ => true
  }

  /** Each event keeps one run in flight per playbook exactly when it is safe. */
  lemma EventKeepsExactly(w: World, e: Event, next: Schedule)
    requires OneFlying(w)
    ensures OneFlying(After(w, e, next)) <==> Safe(w, e, next)
  {
    var after := After(w, e, next);
    assert OneAmong(w.runs, w.alive);
    assert OneAmong(after.runs, after.alive) <==> OneFlying(after);
    match e
    case Fire(slug, choice) => FiredKeepsExactly(w, slug, choice, next);
    case HandStart(r, pid) => if HandStarts(w, r) { StartExactly(w.runs, r, after.runs[r], w.alive, pid); }
    case Restore(r, delete) => RestoreExactly(w, r, delete, next);
    case Birth(pid) => BirthExactly(w.runs, w.alive, pid);
    case _ => HarmlessKeeps(w, e, next);
  }

  /** What the events on one run write: a start by hand says running and the number, unless its
      process lives; a withdrawn launch clears both; archiving, deleting and the way back set one
      flag; and every other row stays. */
  lemma RunEventColumns(w: World, r: Slug, pid: int, next: Schedule)
    requires r in w.runs
    ensures var run := w.runs[r];
      && After(w, HandStart(r, pid), next) ==
           (if run.status == Some("running") && run.pid.Some? && run.pid.value in w.alive then w
            else World(w.books, w.runs[r := Run(run.playbook, run.archived, run.deleted, Some("running"), Some(pid))], w.alive + {pid}))
      && After(w, Withdraw(r), next) == w.(runs := w.runs[r := Run(run.playbook, run.archived, run.deleted, None, None)])
      && After(w, Shelve(r, false), next) == w.(runs := w.runs[r := run.(archived := true)])
      && After(w, Shelve(r, true), next) == w.(runs := w.runs[r := run.(deleted := true)])
      && After(w, Restore(r, false), next) == w.(runs := w.runs[r := run.(archived := false)])
      && After(w, Restore(r, true), next) == w.(runs := w.runs[r := run.(deleted := false)])
  {
  }

  lemma HarmlessKeeps(w: World, e: Event, next: Schedule)
    requires OneFlying(w) && !e.Fire? && !e.HandStart? && !e.Restore? && !e.Birth?
    ensures OneFlying(After(w, e, next))
  {
    var after := After(w, e, next);
    forall r, p | Flying(after.runs, r, p, after.alive) ensures Flying(w.runs, r, p, w.alive) {
      if e.Finalize? && r == e.run { FinalizedIsNotFlying(w.runs, r, e.status, p, w.alive); }
    }
  }

  lemma RestoreExactly(w: World, r: Slug, delete: bool, next: Schedule)
    requires OneFlying(w)
    ensures OneFlying(After(w, Restore(r, delete), next)) <==> Safe(w, Restore(r, delete), next)
  {
    if r in w.runs {
      var others, run := w.runs - {r}, Shelved(w.runs, r, delete, false)[r];
      OthersOne(w.runs, r, w.alive);
      RowExactly(others, r, run, w.alive);
      assert others[r := run] == Shelved(w.runs, r, delete, false);
      assert forall s :: s != r ==> (Flying(others, s, run.playbook, w.alive) <==> Flying(w.runs, s, run.playbook, w.alive));
    }
  }

  /** Worlds one event after the other. */
  ghost predicate History(ws: seq<World>, es: seq<Event>, next: Schedule) {
    && |ws| == |es| + 1
    && forall i :: 0 <= i < |es| ==> ws[i + 1] == After(ws[i], es[i], next)
  }

  lemma {:induction false} SafeSoFar(ws: seq<World>, es: seq<Event>, next: Schedule, k: nat)
    requires History(ws, es, next) && OneFlying(ws[0]) && k < |ws|
    requires forall i :: 0 <= i < k ==> Safe(ws[i], es[i], next)
    ensures OneFlying(ws[k])
  {
    if k > 0 {
      SafeSoFar(ws, es, next, k - 1);
      EventKeepsExactly(ws[k - 1], es[k - 1], next);
    }
  }

  /** Over every history no playbook ever has two listed runs running with live processes,
      exactly when every event of it is safe. */
  lemma NeverTwoInFlight(ws: seq<World>, es: seq<Event>, next: Schedule)
    requires History(ws, es, next) && OneFlying(ws[0])
    ensures (forall k :: 0 <= k < |ws| ==> OneFlying(ws[k])) <==> (forall i :: 0 <= i < |es| ==> Safe(ws[i], es[i], next))
  {
    if forall i :: 0 <= i < |es| ==> Safe(ws[i], es[i], next) {
      forall k | 0 <= k < |ws| ensures OneFlying(ws[k]) { SafeSoFar(ws, es, next, k); }
    }
    if forall k :: 0 <= k < |ws| ==> OneFlying(ws[k]) {
      forall i | 0 <= i < |es| ensures Safe(ws[i], es[i], next) {
        assert OneFlying(ws[i + 1]);
        EventKeepsExactly(ws[i], es[i], next);
      }
    }
  }

  /** A pass is a history of its playbooks' turns. */
  lemma PassIsHistory(w: World, due: seq<Slug>, choice: nat -> Choice, next: Schedule)
    ensures History(seq(|due| + 1, i requires 0 <= i <= |due| => Passed(w, due, i, choice, next)),
                    seq(|due|, i requires 0 <= i < |due| => Fire(due[i], choice(i))), next)
  {
  }

  // ----- the ends of runs -----

  /** A finalized run is in flight no more, whatever processes live, and no other row changes. */
  lemma FinalizedIsNotFlying(runs: Runs, r: Slug, status: string, p: Slug, alive: set<int>)
    ensures var after := Finalized(runs, r, status);
      && !Flying(after, r, p, alive)
      && after.Keys == runs.Keys
      && (forall s :: s in runs && s != r ==> after[s] == runs[s])
      && (r in runs ==> after[r].playbook == runs[r].playbook && (Listed(after[r]) <==> Listed(runs[r])) && after[r].status == Some(status))
  {
  }

  /** Reconciling leaves exactly the same runs in flight. It changes the table exactly when the
      row says running and its process is gone, and then that row says dead; afterwards no row
      of that name says running without a live process. */
  lemma ReconciledExactly(runs: Runs, r: Slug, alive: set<int>)
    ensures var after := Reconciled(runs, r, alive);
      && (forall s, p :: Flying(after, s, p, alive) <==> Flying(runs, s, p, alive))
      && (after != runs <==> r in runs && runs[r].status == Some("running") && (runs[r].pid.Some? ==> runs[r].pid.value !in alive))
      && after.Keys == runs.Keys && (forall s :: s in runs && s != r ==> after[s] == runs[s])
      && (after != runs ==> after[r].status == Some("dead"))
      && (r in after && after[r].status == Some("running") ==> after[r].pid.Some? && after[r].pid.value in alive)
  {
    assert |"dead"| != |"running"|;
    var after := Reconciled(runs, r, alive);
    if r in runs && after[r].status == Some("dead") && runs[r].status == Some("running") { assert after[r] != runs[r]; }
  }

  /** The condition matters: a number taken again while a crashed run's row still carries it puts
      two runs of the playbook in flight. */
  lemma ReusedPidBreaksIt(w: World, crashed: Slug, slug: Slug, c: Choice, next: Schedule)
    requires slug in w.books && w.books[slug].spec.Some? && Launches(w, slug, c, next)
    requires Carries(w.runs, crashed, c.launch.pid) && w.runs[crashed].playbook == slug
    ensures !OneFlying(Fired(w, slug, c, next))
  {
    var after := Fired(w, slug, c, next);
    assert Flying(after.runs, crashed, slug, after.alive) && Flying(after.runs, c.launch.run, slug, after.alive);
  }

  // ----- the scheduler -----

  class Scheduler {
    var books: Books
    var runs: Runs
    var alive: set<int>

    ghost function State(): World
      reads this
    {
      World(books, runs, alive)
    }

    method PausePlaybookSchedule(slug: Slug)
      modifies this`books
      ensures books == Paused(old(books), slug)
    {
      if slug in books && books[slug].spec.Some? {
        books := books[slug := books[slug].(paused := true, next := Unarmed)];
      }
    }

    method SetPlaybookNextFire(slug: Slug, next: Time)
      modifies this`books
      ensures books == NextSet(old(books), slug, next)
    {
      if slug in books { books := books[slug := books[slug].(next := At(next))]; }
    }

    method RecordPlaybookFired(slug: Slug, now: Time, next: Time, run: Slug)
      modifies this`books
      ensures books == Recorded(old(books), slug, now, next, run)
    {
      if slug in books {
        books := books[slug := books[slug].(lastFired := Some(now), lastRun := Some(run), next := At(next))];
      }
    }

    /** playbookRunInFlight: the loop over the listed runs. */
    method PlaybookRunInFlight(playbook: Slug) returns (flying: bool)
      ensures flying <==> InFlight(runs, playbook, alive)
    {
      var rest := runs.Keys;
      while rest != {}
        invariant rest <= runs.Keys
        invariant forall r :: r in runs && r !in rest ==> !Flying(runs, r, playbook, alive)
        decreases |rest|
      {
        var r :| r in rest;
        rest := rest - {r};
        var run := runs[r];
        if run.playbook == playbook && Listed(run) {
          if run.status == Some("running") && run.pid.Some? && run.pid.value in alive { return true; }
        }
      }
      return false;
    }

    /** playbookScheduleFire: creates the run and starts it. */
    method FireRun(slug: Slug, launch: Launch) returns (ok: bool)
      modifies this`runs, this`alive
      ensures ok <==> Starts(old(runs), launch)
      ensures runs == WithRun(old(runs), launch, slug)
      ensures alive == if ok then old(alive) + {launch.pid} else old(alive)
    {
      if launch.NoRun? || launch.run in runs { return false; }
      runs := runs[launch.run := Run(slug, false, false, None, None)];
      if launch.NotStarted? { return false; }
      alive := alive + {launch.pid};
      RecordAutoRunLaunched(launch.run, launch.pid);
      return true;
    }

    method RecordAutoRunLaunched(run: Slug, pid: int)
      modifies this`runs
      ensures runs == if run in old(runs) then old(runs)[run := old(runs)[run].(status := Some("running"), pid := Some(pid))]
                      else old(runs)
    {
      if run in runs { runs := runs[run := runs[run].(status := Some("running"), pid := Some(pid))]; }
    }

    /** firePlaybookSchedule; true when a run was launched. */
    method FirePlaybookSchedule(slug: Slug, spec: string, c: Choice, next: Schedule) returns (launched: bool)
      requires slug in books && books[slug].spec == Some(spec)
      modifies this
      ensures State() == Fired(old(State()), slug, c, next)
      ensures launched <==> Launches(old(State()), slug, c, next)
    {
      alive := alive - c.ended;
      var n := next(spec, c.now);
      if n.None? {
        PausePlaybookSchedule(slug);
        return false;
      }
      var flying := PlaybookRunInFlight(slug);
      if flying {
        SetPlaybookNextFire(slug, n.value);
        return false;
      }
      var ok := FireRun(slug, c.launch);
      if !ok {
        SetPlaybookNextFire(slug, n.value);
        return false;
      }
      RecordPlaybookFired(slug, c.now, n.value, c.launch.run);
      return true;
    }

    /** DuePlaybooks: the rows in slug order, those that are due. */
    method DuePlaybooks(t: Time) returns (due: seq<Slug>)
      ensures DueList(books, t, due)
    {
      due := [];
      var rest := set s | s in books && books[s].spec.Some? && !books[s].archived && !books[s].deleted
                               && !books[s].paused && !books[s].next.Unarmed?;
      ghost var all := rest;
      while rest != {}
        invariant rest <= all
        invariant Ascending(due)
        invariant forall s :: s in due <==> s in all && s !in rest && Due(books[s], t)
        invariant forall a, b :: a in due && b in rest ==> Less(a, b)
        invariant forall a, b :: a in all && a !in rest && b in rest ==> Less(a, b)
        decreases |rest|
      {
        HasLeast(rest);
        ghost var least :| Least(rest, least);
        var s :| s in rest && forall b :: b in rest && b != s ==> Less(s, b);
        rest := rest - {s};
        if books[s].next.At? && books[s].next.time <= t { due := due + [s]; }
      }
    }

    /** The loop of playbookTickDue over the due playbooks. */
    method PlaybookTickDue(t: Time, choice: nat -> Choice, next: Schedule) returns (due: seq<Slug>, fired: nat)
      modifies this
      ensures DueList(old(books), t, due)
      ensures State() == Passed(old(State()), due, |due|, choice, next)
      ensures fired == LaunchCount(old(State()), due, |due|, choice, next)
    {
      due := DuePlaybooks(t);
      fired := 0;
      ghost var start := State();
      for i := 0 to |due|
        invariant State() == Passed(start, due, i, choice, next)
        invariant fired == LaunchCount(start, due, i, choice, next)
      {
        TurnComes(start, t, due, i, choice, next);
        var ok := FirePlaybookSchedule(due[i], books[due[i]].spec.value, choice(i), next);
        if ok { fired := fired + 1; }
      }
    }

    method FinalizeAutoRun(run: Slug, status: string)
      modifies this`runs
      ensures runs == Finalized(old(runs), run, status)
    {
      if run in runs { runs := runs[run := runs[run].(status := Some(status), pid := None)]; }
    }

    method ReconcileAutoRun(run: Slug)
      modifies this`runs
      ensures runs == Reconciled(old(runs), run, alive)
    {
      if run !in runs || runs[run].status != Some("running") { return; }
      if runs[run].pid.Some? && runs[run].pid.value in alive { return; }
      runs := runs[run := runs[run].(status := Some("dead"), pid := None)];
    }
  }

  ghost predicate Least(slugs: set<Slug>, s: Slug) {
    s in slugs && forall b :: b in slugs && b != s ==> Less(s, b)
  }

  lemma {:induction false} HasLeast(slugs: set<Slug>)
    requires slugs != {}
    ensures exists s :: Least(slugs, s)
    decreases slugs
  {
    var x :| x in slugs;
    if slugs - {x} == {} {
      assert slugs == {x};
      assert Least(slugs, x);
    } else {
      HasLeast(slugs - {x});
      var y :| Least(slugs - {x}, y);
      LeastOfTwo(slugs, x, y);
    }
  }

  lemma LeastOfTwo(slugs: set<Slug>, x: Slug, y: Slug)
    requires x in slugs && Least(slugs - {x}, y)
    ensures Least(slugs, x) || Least(slugs, y)
  {
    LessTotal(x, y);
    if Less(x, y) {
      forall b | b in slugs && b != x ensures Less(x, b) {
        if b != y { LessTransitive(x, y, b); }
      }
    }
  }
}
