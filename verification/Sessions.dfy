/** The session columns of a task row, and every command and server request that updates them,
    each as the SQL it issues: an UPDATE is refused by the table's CHECK or by the unique session
    index, or it takes effect. */
module Sessions {
  import opened Text
  import opened Graphs
  import opened TaskTables

  datatype Provider = Claude | Codex

  /** Session ids are opaque; the commands never store a blank one. */
  type SessionId = nat

  datatype Row = Row(status: Status, provider: Provider, sid: Option<SessionId>, started: bool)

  type Rows = map<Slug, Row>

  /** The CHECK on tasks. */
  predicate Check(r: Row) {
    r.status == Backlog || r.status == Done || r.sid.Some? || (r.provider == Codex && r.status == InProgress)
  }

  predicate AllCheck(rows: Rows) {
    forall s :: s in rows ==> Check(rows[s])
  }

  /** The unique index on tasks(session_id). */
  predicate UniqueSids(rows: Rows) {
    forall s, t :: s in rows && t in rows && s != t && rows[s].sid.Some? ==> rows[s].sid != rows[t].sid
  }

  datatype Effect = Applied | Refused | CheckViolated | UniqueViolated

  predicate HeldElsewhere(rows: Rows, slug: Slug, sid: SessionId) {
    exists t :: t in rows && t != slug && rows[t].sid == Some(sid)
  }

  /** UPDATE tasks SET ... WHERE slug = slug, with `row` the row it would leave. */
  function Put(rows: Rows, slug: Slug, row: Row): (Rows, Effect) {
    if !Check(row) then (rows, CheckViolated)
    else if row.sid.Some? && HeldElsewhere(rows, slug, row.sid.value) then (rows, UniqueViolated)
    else (rows[slug := row], Applied)
  }

  // ----- flow do -----

  datatype DoArgs = DoArgs(startFresh: bool, requested: Option<Provider>)

  /** What a `flow do` process carries from its transaction to the spawn. */
  datatype Claim = Claim(bootstrapped: bool, provider: Provider, sid: Option<SessionId>)

  function WantedProvider(r: Row, args: DoArgs): Provider {
    if args.requested.Some? then args.requested.value else r.provider
  }

  predicate NeedsBootstrap(r: Row, args: DoArgs, released: set<(Provider, SessionId)>) {
    || r.sid.None? || args.startFresh || r.provider != WantedProvider(r, args)
    || (r.provider, r.sid.value) in released
  }

  /** The transaction: refuse done tasks and provider clashes, then claim. */
  function DoTx(rows: Rows, released: set<(Provider, SessionId)>, slug: Slug, args: DoArgs, uuid: SessionId)
    : (Rows, Effect, Option<Claim>)
  {
    if slug !in rows || rows[slug].status == Done then (rows, Refused, None)
    else
      var r := rows[slug];
      var provider := WantedProvider(r, args);
      if r.sid.Some? && r.provider != provider && !args.startFresh then (rows, Refused, None)
      else
        var boot := NeedsBootstrap(r, args, released);
        var sid := if boot && provider == Claude then Some(uuid) else r.sid;
        var row :=
          if !boot then r.(status := InProgress)
          else if provider == Claude then Row(InProgress, Claude, Some(uuid), true)
          else Row(InProgress, Codex, None, true);
        var (after, outcome) := Put(rows, slug, row);
        (after, outcome, if outcome.Applied? then Some(Claim(boot, provider, sid)) else None)
  }

  /** The compensating update after a failed spawn. */
  function Rollback(rows: Rows, slug: Slug, claim: Claim): (Rows, Effect) {
    if !claim.bootstrapped || slug !in rows then (rows, Refused)
    else
      var r := rows[slug];
      if claim.provider == Claude then
        if claim.sid.Some? && r.sid == claim.sid then Put(rows, slug, r.(sid := None, started := false, status := Backlog))
        else (rows, Refused)
      else if r.provider == Codex && r.sid.None? then Put(rows, slug, r.(started := false, status := Backlog))
      else (rows, Refused)
  }

  // ----- the other writers -----

  /** flow do --here. */
  function Here(rows: Rows, slug: Slug, force: bool, provider: Provider, sid: SessionId): (Rows, Effect) {
    if slug !in rows || rows[slug].status == Done || HeldElsewhere(rows, slug, sid) then (rows, Refused)
    else
      var r := rows[slug];
      if r.sid == Some(sid) && r.provider == provider then (rows, Refused)
      else if r.sid.Some? && !force then (rows, Refused)
      else Put(rows, slug, Row(InProgress, provider, Some(sid), true))
  }

  /** A background launch reads the row, launches, and only later records the id the harness
      returned. */
  function BackgroundWrite(rows: Rows, slug: Slug, bootstrapping: bool, provider: Provider, sid: SessionId): (Rows, Effect) {
    if slug !in rows || rows[slug].status == Done then (rows, Refused)
    else
      var r := rows[slug];
      Put(rows, slug, Row(InProgress, provider, Some(sid), bootstrapping || r.started))
  }

  /** The Codex capture: only while the row is Codex and holds no other id. */
  function Capture(rows: Rows, slug: Slug, candidate: SessionId): (Rows, Effect) {
    if slug in rows && rows[slug].provider == Codex && (rows[slug].sid.None? || rows[slug].sid == Some(candidate))
    then Put(rows, slug, rows[slug].(sid := Some(candidate), started := true))
    else (rows, Refused)
  }

  /** flow done, up to the status flip; `current` is the surrounding Codex session if this
      command runs in one for this task, `captured` what a capture would find. */
  function DoneBind(rows: Rows, slug: Slug, current: Option<SessionId>): (Rows, Effect)
    requires slug in rows
  {
    if current.Some? && rows[slug].provider == Codex then
      Put(rows, slug, rows[slug].(sid := current, started := true))
    else (rows, Refused)
  }

  function DoneCapture(rows: Rows, slug: Slug, captured: Option<SessionId>): (Rows, Effect)
    requires slug in rows
  {
    if rows[slug].started && captured.Some? then Capture(rows, slug, captured.value) else (rows, Refused)
  }

  predicate Broken(outcome: Effect) {
    outcome == CheckViolated || outcome == UniqueViolated
  }

  /** The flip at the end, once a Codex row has had its chance to bind an id. */
  function DoneFlip(found: Rows, slug: Slug, captureOutcome: Effect): (Rows, Effect)
    requires slug in found
  {
    if Broken(captureOutcome) then (found, captureOutcome)
    else if found[slug].sid.None? then (found, Refused)
    else Put(found, slug, found[slug].(status := Done))
  }

  function FinishTask(rows: Rows, slug: Slug, current: Option<SessionId>, captured: Option<SessionId>): (Rows, Effect) {
    if slug !in rows then (rows, Refused)
    else
      var r := rows[slug];
      if r.status == Backlog && r.sid.None? then (rows, Refused)
      else if r.provider == Codex && r.sid.None? then
        var (bound, bindOutcome) := DoneBind(rows, slug, current);
        if Broken(bindOutcome) then (bound, bindOutcome)
        else
          var (found, captureOutcome) := DoneCapture(bound, slug, captured);
          DoneFlip(found, slug, captureOutcome)
      else Put(rows, slug, r.(status := Done))
  }

  /** flow update task --status. */
  function UpdateStatus(rows: Rows, slug: Slug, status: Status): (Rows, Effect) {
    if slug !in rows || (status != Backlog && rows[slug].sid.None?) then (rows, Refused)
    else Put(rows, slug, rows[slug].(status := status))
  }

  /** flow update task --agent. */
  function UpdateAgent(rows: Rows, slug: Slug, provider: Provider): (Rows, Effect) {
    if slug !in rows || rows[slug].status != Backlog || rows[slug].sid.Some? || rows[slug].started then (rows, Refused)
    else Put(rows, slug, rows[slug].(provider := provider))
  }

  // ----- the server -----

  /** The overview task, which the server starts anew every time. */
  const OVERVIEW: Slug := "flow-overview"

  /** prepareTerminalLaunch's transaction, for a browser or a native terminal. `allowed` is the
      outcome of the start gate, which a done task skips, and of the check for an autonomous run
      that is still running. A done task is taken up again with its session. */
  function Prepare(rows: Rows, slug: Slug, allowed: bool, uuid: SessionId): (Rows, Effect, Option<Claim>) {
    if slug !in rows || !allowed then (rows, Refused, None)
    else
      var r := if slug == OVERVIEW then rows[slug].(status := Backlog, sid := None, started := false) else rows[slug];
      var boot := r.sid.None?;
      var row :=
        if !boot then r.(status := InProgress)
        else if r.provider == Claude then Row(InProgress, Claude, Some(uuid), true)
        else Row(InProgress, Codex, None, true);
      var (after, outcome) := Put(rows, slug, row);
      (after, outcome,
       if outcome.Applied? then Some(Claim(boot, r.provider, if boot && r.provider == Claude then Some(uuid) else r.sid)) else None)
  }

  /** restartFreshBrowserTerminalBridge: drop the session. */
  function RestartFresh(rows: Rows, slug: Slug, allowed: bool): (Rows, Effect) {
    if slug !in rows || rows[slug].status == Done || !allowed then (rows, Refused)
    else Put(rows, slug, rows[slug].(status := Backlog, sid := None, started := false))
  }

  /** restartBrowserTerminalBridge: take the session up again, if there is one. */
  function RestartResume(rows: Rows, slug: Slug, allowed: bool): (Rows, Effect) {
    if slug !in rows || rows[slug].status == Done || !allowed || rows[slug].sid.None? then (rows, Refused)
    else Put(rows, slug, rows[slug].(status := InProgress))
  }

  /** createFlowFromExisting on a done, archived or deleted task (`shelved` for the last two). */
  function Reactivate(rows: Rows, slug: Slug, provider: Provider, shelved: bool): (Rows, Effect) {
    if slug !in rows || !(shelved || rows[slug].status == Done) then (rows, Refused)
    else Put(rows, slug, Row(Backlog, provider, None, false))
  }

  /** A review comment on a finished task's pull request reopens it. */
  function Reopen(rows: Rows, slug: Slug): (Rows, Effect) {
    if slug in rows && rows[slug].status == Done then Put(rows, slug, rows[slug].(status := Backlog))
    else (rows, Refused)
  }

  lemma PutKeeps(rows: Rows, slug: Slug, row: Row)
    requires AllCheck(rows) && UniqueSids(rows)
    ensures AllCheck(Put(rows, slug, row).0) && UniqueSids(Put(rows, slug, row).0)
  {
    var after := Put(rows, slug, row).0;
    forall s, t | s in after && t in after && s != t && after[s].sid.Some? ensures after[s].sid != after[t].sid {
      if s == slug && after != rows && t in rows && rows[t].sid == row.sid { assert HeldElsewhere(rows, slug, row.sid.value); }
      if t == slug && after != rows && s in rows && rows[s].sid == row.sid { assert HeldElsewhere(rows, slug, row.sid.value); }
    }
  }

  lemma PutElsewhere(rows: Rows, slug: Slug, row: Row)
    ensures OthersKept(rows, slug, Put(rows, slug, row).0) && (slug in rows ==> slug in Put(rows, slug, row).0)
  {
  }

  predicate OthersKept(rows: Rows, slug: Slug, after: Rows) {
    forall t :: t in rows && t != slug ==> t in after && after[t] == rows[t]
  }

  /** A step that binds an id leaves the task's status and provider and every other row. */
  predicate BindsOnly(rows: Rows, slug: Slug, after: Rows, outcome: Effect)
    requires slug in rows
  {
    && slug in after && outcome != CheckViolated
    && after[slug].status == rows[slug].status && after[slug].provider == rows[slug].provider
    && OthersKept(rows, slug, after)
  }

  lemma BindEffect(rows: Rows, slug: Slug, current: Option<SessionId>)
    requires slug in rows && rows[slug].sid.None?
    ensures BindsOnly(rows, slug, DoneBind(rows, slug, current).0, DoneBind(rows, slug, current).1)
  {
    PutElsewhere(rows, slug, rows[slug].(sid := current, started := true));
  }

  lemma CaptureEffect(rows: Rows, slug: Slug, captured: Option<SessionId>)
    requires slug in rows
    ensures BindsOnly(rows, slug, DoneCapture(rows, slug, captured).0, DoneCapture(rows, slug, captured).1)
  {
    PutElsewhere(rows, slug, rows[slug].(sid := captured, started := true));
  }

  lemma FlipEffect(rows: Rows, slug: Slug)
    requires slug in rows
    ensures var (after, outcome) := Put(rows, slug, rows[slug].(status := Done));
      && slug in after && outcome != CheckViolated && after[slug].sid == rows[slug].sid
      && (outcome.Applied? ==> after[slug].status == Done)
      && (!outcome.Applied? ==> after == rows)
      && OthersKept(rows, slug, after)
  {
    PutElsewhere(rows, slug, rows[slug].(status := Done));
  }

  lemma DoneFlipEffect(found: Rows, slug: Slug, captureOutcome: Effect)
    requires slug in found && captureOutcome != CheckViolated
    ensures var (after, outcome) := DoneFlip(found, slug, captureOutcome);
      && slug in after && outcome != CheckViolated && after[slug].sid == found[slug].sid
      && (found[slug].status != Done && after[slug].status == Done ==> after[slug].sid.Some?)
      && (outcome.Applied? ==> after[slug].status == Done)
      && (found[slug].status == Done ==> after[slug].status == Done)
      && OthersKept(found, slug, after)
  {
    FlipEffect(found, slug);
  }

  lemma KeptTwice(a: Rows, slug: Slug, b: Rows, c: Rows)
    requires OthersKept(a, slug, b) && OthersKept(b, slug, c)
    ensures OthersKept(a, slug, c)
  {
  }

  /** cmdDone turns a task done only if it carries a session id, it changes no other row, and
      whichever way it ends the CHECK is not what stops it. */
  lemma DoneNeedsSession(rows: Rows, slug: Slug, current: Option<SessionId>, captured: Option<SessionId>)
    requires slug in rows && Check(rows[slug])
    ensures var (after, outcome) := FinishTask(rows, slug, current, captured);
      && slug in after && outcome != CheckViolated
      && (rows[slug].status != Done && after[slug].status == Done ==> after[slug].sid.Some?)
      && (rows[slug].sid.Some? ==> after[slug].sid == rows[slug].sid)
      && (outcome.Applied? ==> after[slug].status == Done)
      && (rows[slug].status == Done ==> after[slug].status == Done)
      && OthersKept(rows, slug, after)
  {
    if rows[slug].provider == Codex && rows[slug].sid.None? {
      BindEffect(rows, slug, current);
      BoundFinish(rows, DoneBind(rows, slug, current).0, slug, captured);
    } else {
      FlipEffect(rows, slug);
    }
  }

  lemma DoneKeepsProvider(rows: Rows, slug: Slug, current: Option<SessionId>, captured: Option<SessionId>)
    requires slug in rows
    ensures var after := FinishTask(rows, slug, current, captured).0;
      slug in after && after[slug].provider == rows[slug].provider
  {
    if rows[slug].provider == Codex && rows[slug].sid.None? {
      BindEffect(rows, slug, current);
      CaptureEffect(DoneBind(rows, slug, current).0, slug, captured);
    }
  }

  lemma BoundFinish(rows: Rows, bound: Rows, slug: Slug, captured: Option<SessionId>)
    requires slug in rows && slug in bound && bound[slug].status == rows[slug].status && OthersKept(rows, slug, bound)
    ensures var (found, captureOutcome) := DoneCapture(bound, slug, captured);
      slug in found &&
      var (after, outcome) := DoneFlip(found, slug, captureOutcome);
      && slug in after && outcome != CheckViolated
      && (rows[slug].status != Done && after[slug].status == Done ==> after[slug].sid.Some?)
      && (outcome.Applied? ==> after[slug].status == Done)
      && (rows[slug].status == Done ==> after[slug].status == Done)
      && OthersKept(rows, slug, after)
  {
    CaptureEffect(bound, slug, captured);
    var (found, captureOutcome) := DoneCapture(bound, slug, captured);
    DoneFlipEffect(found, slug, captureOutcome);
    KeptTwice(rows, slug, bound, found);
    KeptTwice(rows, slug, found, DoneFlip(found, slug, captureOutcome).0);
  }

  // ----- the commands as they run -----

  class SessionTable {
    var rows: Rows
    var released: set<(Provider, SessionId)>

    constructor (initial: Rows)
      ensures rows == initial && released == {}
    {
      rows, released := initial, {};
    }

    /** One UPDATE under the table's constraints. */
    method Update(slug: Slug, row: Row) returns (outcome: Effect)
      modifies this`rows
      ensures (rows, outcome) == Put(old(rows), slug, row)
    {
      if !Check(row) { return CheckViolated; }
      if row.sid.Some? && HeldElsewhere(rows, slug, row.sid.value) { return UniqueViolated; }
      rows := rows[slug := row];
      return Applied;
    }

    /** cmdDo between BEGIN IMMEDIATE and COMMIT. */
    method DoTransaction(slug: Slug, args: DoArgs, uuid: SessionId) returns (outcome: Effect, claim: Option<Claim>)
      modifies this`rows
      ensures (rows, outcome, claim) == DoTx(old(rows), released, slug, args, uuid)
    {
      if slug !in rows { return Refused, None; }
      if rows[slug].status == Done { return Refused, None; }
      var curSession, curProvider := rows[slug].sid, rows[slug].provider;
      var provider := curProvider;
      if args.requested.Some? { provider := args.requested.value; }
      if curSession.Some? && curProvider != provider && !args.startFresh { return Refused, None; }
      var needsBootstrap := curSession.None? || args.startFresh || curProvider != provider;
      if !needsBootstrap && curSession.Some? {
        if (curProvider, curSession.value) in released { needsBootstrap := true; }
      }
      var sessionID: Option<SessionId> := None;
      if needsBootstrap && provider == Claude {
        sessionID := Some(uuid);
      } else if curSession.Some? {
        sessionID := curSession;
      }
      if needsBootstrap {
        if provider == Claude {
          outcome := Update(slug, Row(InProgress, provider, sessionID, true));
        } else {
          outcome := Update(slug, Row(InProgress, provider, None, true));
        }
      } else {
        outcome := Update(slug, rows[slug].(status := InProgress));
      }
      claim := if outcome.Applied? then Some(Claim(needsBootstrap, provider, sessionID)) else None;
    }

    /** The spawn failed: undo the claim if this process still owns it. */
    method RollbackSpawn(slug: Slug, claim: Claim) returns (outcome: Effect)
      modifies this`rows
      ensures (rows, outcome) == Rollback(old(rows), slug, claim)
    {
      if !claim.bootstrapped { return Refused; }
      if claim.provider == Claude {
        if slug in rows && claim.sid.Some? && rows[slug].sid == claim.sid {
          outcome := Update(slug, rows[slug].(sid := None, started := false, status := Backlog));
          return;
        }
      } else if slug in rows && rows[slug].provider == Codex && rows[slug].sid.None? {
        outcome := Update(slug, rows[slug].(started := false, status := Backlog));
        return;
      }
      return Refused;
    }

    method BindHere(slug: Slug, force: bool, provider: Provider, sid: SessionId) returns (outcome: Effect)
      modifies this`rows
      ensures (rows, outcome) == Here(old(rows), slug, force, provider, sid)
    {
      if slug !in rows { return Refused; }
      if rows[slug].status == Done { return Refused; }
      if HeldElsewhere(rows, slug, sid) { return Refused; }
      if rows[slug].sid.Some? {
        if rows[slug].sid == Some(sid) && rows[slug].provider == provider { return Refused; }
        if !force { return Refused; }
      }
      outcome := Update(slug, Row(InProgress, provider, Some(sid), true));
    }

    method CaptureSession(slug: Slug, candidate: SessionId) returns (outcome: Effect)
      modifies this`rows
      ensures (rows, outcome) == Capture(old(rows), slug, candidate)
    {
      if slug in rows && rows[slug].provider == Codex
         && (rows[slug].sid.None? || rows[slug].sid == Some(candidate)) {
        outcome := Update(slug, rows[slug].(sid := Some(candidate), started := true));
      } else {
        outcome := Refused;
      }
    }

    /** cmdDone: bind the surrounding Codex session, try a capture, then flip the status. */
    method MarkDone(slug: Slug, current: Option<SessionId>, captured: Option<SessionId>) returns (outcome: Effect)
      modifies this`rows
      ensures (rows, outcome) == FinishTask(old(rows), slug, current, captured)
    {
      if slug !in rows { return Refused; }
      if rows[slug].status == Backlog && rows[slug].sid.None? { return Refused; }
      if rows[slug].provider == Codex && rows[slug].sid.None? {
        if current.Some? {
          outcome := Update(slug, rows[slug].(sid := current, started := true));
          if outcome != Applied { return; }
        }
        if rows[slug].started && captured.Some? {
          outcome := CaptureSession(slug, captured.value);
          if outcome == CheckViolated || outcome == UniqueViolated { return; }
        }
        if rows[slug].sid.None? { return Refused; }
      }
      outcome := Update(slug, rows[slug].(status := Done));
    }

    /** cmdUpdateTask's --status and --agent, guards included. */
    method SetStatus(slug: Slug, status: Status) returns (outcome: Effect)
      modifies this`rows
      ensures (rows, outcome) == UpdateStatus(old(rows), slug, status)
    {
      if slug !in rows { return Refused; }
      if status != Backlog && rows[slug].sid.None? { return Refused; }
      outcome := Update(slug, rows[slug].(status := status));
    }

    method SetAgent(slug: Slug, provider: Provider) returns (outcome: Effect)
      modifies this`rows
      ensures (rows, outcome) == UpdateAgent(old(rows), slug, provider)
    {
      if slug !in rows { return Refused; }
      if rows[slug].status != Backlog || rows[slug].sid.Some? || rows[slug].started { return Refused; }
      outcome := Update(slug, rows[slug].(provider := provider));
    }

    /** The last statement of cmdDoBackground. */
    method RecordBackground(slug: Slug, bootstrapping: bool, provider: Provider, sid: SessionId) returns (outcome: Effect)
      modifies this`rows
      ensures (rows, outcome) == BackgroundWrite(old(rows), slug, bootstrapping, provider, sid)
    {
      if slug !in rows || rows[slug].status == Done { return Refused; }
      if bootstrapping {
        outcome := Update(slug, Row(InProgress, provider, Some(sid), true));
      } else {
        outcome := Update(slug, rows[slug].(status := InProgress, provider := provider, sid := Some(sid)));
      }
    }

    /** prepareTerminalLaunch up to its COMMIT; a refusal rolls the overview's reset back. */
    method PrepareTerminal(slug: Slug, allowed: bool, uuid: SessionId) returns (outcome: Effect, claim: Option<Claim>)
      modifies this`rows
      ensures (rows, outcome, claim) == Prepare(old(rows), slug, allowed, uuid)
    {
      if slug !in rows { return Refused, None; }
      var r := rows[slug];
      if slug == OVERVIEW { r := r.(status := Backlog, sid := None, started := false); }
      if !allowed { return Refused, None; }
      var sessionID, created := r.sid, false;
      if sessionID.None? {
        created := true;
        if r.provider == Codex {
          outcome := Update(slug, Row(InProgress, Codex, None, true));
        } else {
          sessionID := Some(uuid);
          outcome := Update(slug, Row(InProgress, Claude, sessionID, true));
        }
      } else {
        outcome := Update(slug, r.(status := InProgress));
      }
      claim := if outcome.Applied? then Some(Claim(created, r.provider, sessionID)) else None;
    }

    /** The server's restart buttons. */
    method RestartTerminal(slug: Slug, allowed: bool, startFresh: bool) returns (outcome: Effect)
      modifies this`rows
      ensures (rows, outcome) == if startFresh then RestartFresh(old(rows), slug, allowed) else RestartResume(old(rows), slug, allowed)
    {
      if slug !in rows { return Refused; }
      if rows[slug].status == Done { return Refused; }
      if !allowed { return Refused; }
      if startFresh {
        outcome := Update(slug, rows[slug].(status := Backlog, sid := None, started := false));
      } else if rows[slug].sid.Some? {
        outcome := Update(slug, rows[slug].(status := InProgress));
      } else {
        outcome := Refused;
      }
    }

    /** createFlowFromExisting. */
    method ReactivateTask(slug: Slug, provider: Provider, shelved: bool) returns (outcome: Effect)
      modifies this`rows
      ensures (rows, outcome) == Reactivate(old(rows), slug, provider, shelved)
    {
      if slug !in rows { return Refused; }
      if !shelved && rows[slug].status != Done { return Refused; }
      outcome := Update(slug, Row(Backlog, provider, None, false));
    }
  }
}
