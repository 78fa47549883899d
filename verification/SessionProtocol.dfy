/** Any number of flow processes and server requests working on the same task table. A `flow do`
    process runs its transaction in one step and hears about its spawn in a later one, with every
    other process free to act in between, and so does a terminal that the server opens; a
    background launch likewise reads in one step and writes in another. The remaining commands
    are one step each. */
module SessionProtocol {
  import opened Text
  import opened Graphs
  import opened TaskTables
  import opened Sessions

  datatype Proc =
    | Pending(slug: Slug, claim: Claim)
    | Launched(slug: Slug, claim: Claim)
    | Failed(slug: Slug)
    | Launching(slug: Slug, bootstrapping: bool, provider: Provider)
    | Recorded(slug: Slug)

  /** minted records which process allocated each preallocated session id. */
  datatype Sys = Sys(
    rows: Rows,
    released: set<(Provider, SessionId)>,
    procs: map<nat, Proc>,
    minted: map<SessionId, nat>)

  datatype Step =
    | Begin(pid: nat, slug: Slug, args: DoArgs, uuid: SessionId)
    | SpawnSucceeds(pid: nat)
    | SpawnFails(pid: nat)
    | BindHere(slug: Slug, force: bool, provider: Provider, sid: SessionId)
    | BackgroundReads(pid: nat, slug: Slug, requested: Option<Provider>, startFresh: bool)
    | BackgroundWrites(pid: nat, sid: SessionId)
    | MarkDone(slug: Slug, current: Option<SessionId>, captured: Option<SessionId>)
    | SetStatus(slug: Slug, status: Status)
    | SetAgent(slug: Slug, provider: Provider)
    | CaptureId(slug: Slug, candidate: SessionId)
    | SessionEnds(provider: Provider, sid: SessionId)
    | ReviewReopens(slug: Slug)
    | AddTask(slug: Slug, provider: Provider)
    | BridgePrepare(pid: nat, slug: Slug, allowed: bool, uuid: SessionId)
    | BridgeFresh(slug: Slug, allowed: bool)
    | BridgeResume(slug: Slug, allowed: bool)
    | Reactivation(slug: Slug, provider: Provider, shelved: bool)

  /** A minted id has never been seen before. */
  predicate Unseen(sys: Sys, uuid: SessionId) {
    && uuid !in sys.minted
    && (forall s :: s in sys.rows ==> sys.rows[s].sid != Some(uuid))
    && (Claude, uuid) !in sys.released && (Codex, uuid) !in sys.released
  }

  predicate Enabled(sys: Sys, step: Step) {
    match step
    case Begin(pid, _, _, uuid) => pid !in sys.procs && Unseen(sys, uuid)
    case BridgePrepare(pid, _, _, uuid) => pid !in sys.procs && Unseen(sys, uuid)
    case SpawnSucceeds(pid) => pid in sys.procs && sys.procs[pid].Pending?
    case SpawnFails(pid) => pid in sys.procs && sys.procs[pid].Pending?
    case BackgroundReads(pid, slug, _, _) => pid !in sys.procs && slug in sys.rows && sys.rows[slug].status != Done
    case BackgroundWrites(pid, _) => pid in sys.procs && sys.procs[pid].Launching?
    case _ => true
  }

  function WithRows(sys: Sys, update: (Rows, Effect)): (Sys, Effect) {
    (sys.(rows := update.0), update.1)
  }

  /** A claiming transaction: whoever bootstraps a Claude session has minted its id. */
  function ClaimStep(sys: Sys, pid: nat, slug: Slug, uuid: SessionId, result: (Rows, Effect, Option<Claim>)): (Sys, Effect) {
    var (rows, outcome, claim) := result;
    if claim.None? then (sys.(rows := rows, procs := sys.procs[pid := Failed(slug)]), outcome)
    else
      var owns := claim.value.bootstrapped && claim.value.provider == Claude;
      (sys.(rows := rows,
            procs := sys.procs[pid := Pending(slug, claim.value)],
            minted := if owns then sys.minted[uuid := pid] else sys.minted), outcome)
  }

  /** The step is a claiming transaction. */
  predicate Claiming(step: Step) {
    step.Begin? || step.BridgePrepare?
  }

  function Next(sys: Sys, step: Step): (Sys, Effect)
    requires Enabled(sys, step)
  {
    match step
    case Begin(pid, slug, args, uuid) => ClaimStep(sys, pid, slug, uuid, DoTx(sys.rows, sys.released, slug, args, uuid))
    case BridgePrepare(pid, slug, allowed, uuid) => ClaimStep(sys, pid, slug, uuid, Prepare(sys.rows, slug, allowed, uuid))
    case BridgeFresh(slug, allowed) => WithRows(sys, RestartFresh(sys.rows, slug, allowed))
    case BridgeResume(slug, allowed) => WithRows(sys, RestartResume(sys.rows, slug, allowed))
    case Reactivation(slug, provider, shelved) => WithRows(sys, Reactivate(sys.rows, slug, provider, shelved))
    case SpawnSucceeds(pid) =>
      (sys.(procs := sys.procs[pid := Launched(sys.procs[pid].slug, sys.procs[pid].claim)]), Applied)
    case SpawnFails(pid) =>
      var p := sys.procs[pid];
      WithRows(sys.(procs := sys.procs[pid := Failed(p.slug)]), Rollback(sys.rows, p.slug, p.claim))
    case BindHere(slug, force, provider, sid) => WithRows(sys, Here(sys.rows, slug, force, provider, sid))
    case BackgroundReads(pid, slug, requested, startFresh) =>
      var r := sys.rows[slug];
      var provider := if requested.Some? then requested.value else r.provider;
      (sys.(procs := sys.procs[pid := Launching(slug, startFresh || r.sid.None?, provider)]), Applied)
    case BackgroundWrites(pid, sid) =>
      var p := sys.procs[pid];
      WithRows(sys.(procs := sys.procs[pid := Recorded(p.slug)]),
               BackgroundWrite(sys.rows, p.slug, p.bootstrapping, p.provider, sid))
    case MarkDone(slug, current, captured) => WithRows(sys, FinishTask(sys.rows, slug, current, captured))
    case SetStatus(slug, status) => WithRows(sys, UpdateStatus(sys.rows, slug, status))
    case SetAgent(slug, provider) => WithRows(sys, UpdateAgent(sys.rows, slug, provider))
    case CaptureId(slug, candidate) => WithRows(sys, Capture(sys.rows, slug, candidate))
    case SessionEnds(provider, sid) => (sys.(released := sys.released + {(provider, sid)}), Applied)
    case ReviewReopens(slug) => WithRows(sys, Reopen(sys.rows, slug))
    case AddTask(slug, provider) =>
      if slug in sys.rows then (sys, Refused)
      else WithRows(sys, Put(sys.rows, slug, Row(Backlog, provider, None, false)))
  }

  /** The id a bootstrapping Claude process carries is one it minted itself. */
  predicate OwnClaim(sys: Sys, pid: nat) {
    pid in sys.procs && (sys.procs[pid].Pending? || sys.procs[pid].Launched?)
      && sys.procs[pid].claim.bootstrapped && sys.procs[pid].claim.provider == Claude ==>
        && sys.procs[pid].claim.sid.Some?
        && sys.procs[pid].claim.sid.value in sys.minted
        && sys.minted[sys.procs[pid].claim.sid.value] == pid
  }

  ghost predicate Inv(sys: Sys) {
    AllCheck(sys.rows) && UniqueSids(sys.rows) && forall pid :: pid in sys.procs ==> OwnClaim(sys, pid)
  }

  /** What a claiming transaction comes back with. */
  predicate GoodClaim(rows: Rows, result: (Rows, Effect, Option<Claim>), uuid: SessionId) {
    && AllCheck(result.0) && UniqueSids(result.0)
    && (result.1.Applied? || result.1.Refused?)
    && (result.2.Some? && result.2.value.bootstrapped && result.2.value.provider == Claude ==> result.2.value.sid == Some(uuid))
  }

  lemma DoTxKeeps(sys: Sys, slug: Slug, args: DoArgs, uuid: SessionId)
    requires Inv(sys) && Unseen(sys, uuid)
    ensures GoodClaim(sys.rows, DoTx(sys.rows, sys.released, slug, args, uuid), uuid)
  {
    if slug in sys.rows {
      PutKeeps(sys.rows, slug, sys.rows[slug].(status := InProgress));
      PutKeeps(sys.rows, slug, Row(InProgress, Claude, Some(uuid), true));
      PutKeeps(sys.rows, slug, Row(InProgress, Codex, None, true));
    }
  }

  lemma PrepareKeeps(sys: Sys, slug: Slug, allowed: bool, uuid: SessionId)
    requires Inv(sys) && Unseen(sys, uuid)
    ensures GoodClaim(sys.rows, Prepare(sys.rows, slug, allowed, uuid), uuid)
  {
    if slug in sys.rows {
      PutKeeps(sys.rows, slug, sys.rows[slug].(status := InProgress));
      PutKeeps(sys.rows, slug, Row(InProgress, Claude, Some(uuid), true));
      PutKeeps(sys.rows, slug, Row(InProgress, Codex, None, true));
    }
  }

  lemma ClaimKeepsInv(sys: Sys, pid: nat, slug: Slug, uuid: SessionId, result: (Rows, Effect, Option<Claim>))
    requires Inv(sys) && pid !in sys.procs && Unseen(sys, uuid) && GoodClaim(sys.rows, result, uuid)
    ensures Inv(ClaimStep(sys, pid, slug, uuid, result).0)
  {
    var after := ClaimStep(sys, pid, slug, uuid, result).0;
    forall q | q in after.procs ensures OwnClaim(after, q) {
      if q != pid { assert OwnClaim(sys, q); }
    }
  }

  /** Every step keeps the invariant, and no update any step issues violates the CHECK. */
  lemma StepKeepsInv(sys: Sys, step: Step)
    requires Inv(sys) && Enabled(sys, step)
    ensures Inv(Next(sys, step).0)
    ensures Next(sys, step).1 != CheckViolated
  {
    if step.Begin? {
      DoTxKeeps(sys, step.slug, step.args, step.uuid);
      ClaimKeepsInv(sys, step.pid, step.slug, step.uuid, DoTx(sys.rows, sys.released, step.slug, step.args, step.uuid));
    } else if step.BridgePrepare? {
      PrepareKeeps(sys, step.slug, step.allowed, step.uuid);
      ClaimKeepsInv(sys, step.pid, step.slug, step.uuid, Prepare(sys.rows, step.slug, step.allowed, step.uuid));
    } else {
      RowsKeep(sys, step);
      ClaimsKeep(sys, step);
    }
  }

  lemma ClaimsKeep(sys: Sys, step: Step)
    requires Inv(sys) && Enabled(sys, step) && !Claiming(step)
    ensures forall q :: q in Next(sys, step).0.procs ==> OwnClaim(Next(sys, step).0, q)
  {
    var after := Next(sys, step).0;
    forall q | q in after.procs ensures OwnClaim(after, q) {
      if q in sys.procs { assert OwnClaim(sys, q); }
    }
  }

  lemma RowsKeep(sys: Sys, step: Step)
    requires Inv(sys) && Enabled(sys, step) && !Claiming(step)
    ensures AllCheck(Next(sys, step).0.rows) && UniqueSids(Next(sys, step).0.rows)
    ensures Next(sys, step).1 != CheckViolated
    ensures Next(sys, step).0.minted == sys.minted
  {
    var rows := sys.rows;
    match step
    case SpawnFails(pid) =>
      var slug := sys.procs[pid].slug;
      if slug in rows {
        PutKeeps(rows, slug, rows[slug].(sid := None, started := false, status := Backlog));
        PutKeeps(rows, slug, rows[slug].(started := false, status := Backlog));
      }
    case BindHere(slug, force, provider, sid) => PutKeeps(rows, slug, Row(InProgress, provider, Some(sid), true));
    case BackgroundWrites(pid, sid) =>
      var p := sys.procs[pid];
      if p.slug in rows {
        PutKeeps(rows, p.slug, Row(InProgress, p.provider, Some(sid), p.bootstrapping || rows[p.slug].started));
      }
    case MarkDone(slug, current, captured) => FinishKeeps(rows, slug, current, captured);
    case SetStatus(slug, status) => if slug in rows { PutKeeps(rows, slug, rows[slug].(status := status)); }
    case SetAgent(slug, provider) => if slug in rows { PutKeeps(rows, slug, rows[slug].(provider := provider)); }
    case CaptureId(slug, candidate) =>
      if slug in rows { PutKeeps(rows, slug, rows[slug].(sid := Some(candidate), started := true)); }
    case ReviewReopens(slug) => if slug in rows { PutKeeps(rows, slug, rows[slug].(status := Backlog)); }
    case AddTask(slug, provider) => PutKeeps(rows, slug, Row(Backlog, provider, None, false));
    case BridgeFresh(_, _) => ServerKeeps(sys, step);
    case BridgeResume(_, _) => ServerKeeps(sys, step);
    case Reactivation(_, _, _) => ServerKeeps(sys, step);
    case _ =>
  }

  lemma ServerKeeps(sys: Sys, step: Step)
    requires Inv(sys) && (step.BridgeFresh? || step.BridgeResume? || step.Reactivation?)
    ensures AllCheck(Next(sys, step).0.rows) && UniqueSids(Next(sys, step).0.rows)
    ensures Next(sys, step).1 != CheckViolated
    ensures Next(sys, step).0.minted == sys.minted
  {
    var rows, slug := sys.rows, step.slug;
    if slug in rows {
      PutKeeps(rows, slug, rows[slug].(status := Backlog, sid := None, started := false));
      PutKeeps(rows, slug, rows[slug].(status := InProgress));
    }
    if step.Reactivation? { PutKeeps(rows, slug, Row(Backlog, step.provider, None, false)); }
  }

  lemma FinishKeeps(rows: Rows, slug: Slug, current: Option<SessionId>, captured: Option<SessionId>)
    requires AllCheck(rows) && UniqueSids(rows)
    ensures var (after, outcome) := FinishTask(rows, slug, current, captured);
      AllCheck(after) && UniqueSids(after) && outcome != CheckViolated
  {
    if slug in rows {
      var r := rows[slug];
      PutKeeps(rows, slug, r.(status := Done));
      if r.provider == Codex && r.sid.None? {
        PutKeeps(rows, slug, r.(sid := current, started := true));
        var bound := DoneBind(rows, slug, current).0;
        PutKeeps(bound, slug, bound[slug].(sid := captured, started := true));
        var found := DoneCapture(bound, slug, captured).0;
        PutKeeps(found, slug, found[slug].(status := Done));
      }
    }
  }

  function Run(sys: Sys, steps: seq<Step>): Sys
    requires EnabledRun(sys, steps)
    decreases |steps|
  {
    if steps == [] then sys else Run(Next(sys, steps[0]).0, steps[1..])
  }

  predicate EnabledRun(sys: Sys, steps: seq<Step>)
    decreases |steps|
  {
    steps == [] || (Enabled(sys, steps[0]) && EnabledRun(Next(sys, steps[0]).0, steps[1..]))
  }

  const EMPTY: Sys := Sys(map[], {}, map[], map[])

  /** In every interleaving, however long, the CHECK and the session index hold, and every
      preallocated id is carried only by the process that minted it. */
  lemma {:induction false} RunsKeepInv(sys: Sys, steps: seq<Step>)
    requires Inv(sys) && EnabledRun(sys, steps)
    ensures Inv(Run(sys, steps))
    decreases |steps|
  {
    if steps != [] {
      StepKeepsInv(sys, steps[0]);
      RunsKeepInv(Next(sys, steps[0]).0, steps[1..]);
    }
  }

  // ----- who may take a session id away -----

  /** The steps that replace or clear id u on this task. */
  predicate TakesAway(sys: Sys, step: Step, slug: Slug, u: SessionId)
    requires slug in sys.rows
  {
    var r := sys.rows[slug];
    match step
    case Begin(_, s, args, _) =>
      s == slug && r.status != Done
        && (args.startFresh || (WantedProvider(r, args) == r.provider && (r.provider, u) in sys.released))
    case BindHere(s, force, _, sid) =>
      s == slug && r.status != Done && force && sid != u && !HeldElsewhere(sys.rows, slug, sid)
    case BackgroundWrites(pid, sid) =>
      pid in sys.procs && sys.procs[pid].slug == slug && r.status != Done
        && sid != u && !HeldElsewhere(sys.rows, slug, sid)
    case SpawnFails(pid) =>
      pid in sys.procs && sys.procs[pid].slug == slug && sys.procs[pid].Pending?
        && sys.procs[pid].claim.bootstrapped && sys.procs[pid].claim.provider == Claude
        && sys.procs[pid].claim.sid == Some(u)
    case BridgePrepare(_, s, allowed, _) => s == slug && allowed && slug == OVERVIEW
    case BridgeFresh(s, allowed) => s == slug && allowed && r.status != Done
    case Reactivation(s, _, shelved) => s == slug && (shelved || r.status == Done)
    case _ => false
  }

  predicate Holds(sys: Sys, slug: Slug, u: SessionId) {
    slug in sys.rows && sys.rows[slug].sid == Some(u)
  }

  /** Exactly which steps take a session id from its task: --fresh, a released session,
      --here --force, a background write, a rollback, or, on the server, opening the overview,
      a fresh restart or a reactivation. */
  lemma IdTakenExactlyBy(sys: Sys, step: Step, slug: Slug, u: SessionId)
    requires Inv(sys) && Enabled(sys, step) && Holds(sys, slug, u)
    ensures !Holds(Next(sys, step).0, slug, u) <==> TakesAway(sys, step, slug, u)
  {
    match step
    case Begin(_, _, _, _) => IdTakenByBegin(sys, step, slug, u);
    case MarkDone(_, _, _) => IdStaysAfterDone(sys, step, slug, u);
    case BindHere(_, _, _, _) => IdTakenByWrite(sys, step, slug, u);
    case BackgroundWrites(_, _) => IdTakenByWrite(sys, step, slug, u);
    case SpawnFails(_) => IdTakenByRollback(sys, step, slug, u);
    case BridgePrepare(_, _, _, _) => IdTakenByPrepare(sys, step, slug, u);
    case BridgeFresh(_, _) => IdTakenByServer(sys, step, slug, u);
    case Reactivation(_, _, _) => IdTakenByServer(sys, step, slug, u);
    case _ => IdStays(sys, step, slug, u);
  }

  lemma IdTakenByBegin(sys: Sys, step: Step, slug: Slug, u: SessionId)
    requires step.Begin? && Enabled(sys, step) && Holds(sys, slug, u)
    ensures !Holds(Next(sys, step).0, slug, u) <==> TakesAway(sys, step, slug, u)
  {
  }

  lemma IdStaysAfterDone(sys: Sys, step: Step, slug: Slug, u: SessionId)
    requires Inv(sys) && step.MarkDone? && Holds(sys, slug, u)
    ensures Holds(Next(sys, step).0, slug, u)
  {
    if step.slug in sys.rows { DoneNeedsSession(sys.rows, step.slug, step.current, step.captured); }
  }

  lemma IdTakenByWrite(sys: Sys, step: Step, slug: Slug, u: SessionId)
    requires (step.BindHere? || step.BackgroundWrites?) && Enabled(sys, step) && Holds(sys, slug, u)
    ensures !Holds(Next(sys, step).0, slug, u) <==> TakesAway(sys, step, slug, u)
  {
  }

  lemma IdTakenByRollback(sys: Sys, step: Step, slug: Slug, u: SessionId)
    requires step.SpawnFails? && Enabled(sys, step) && Holds(sys, slug, u)
    ensures !Holds(Next(sys, step).0, slug, u) <==> TakesAway(sys, step, slug, u)
  {
  }

  lemma IdTakenByPrepare(sys: Sys, step: Step, slug: Slug, u: SessionId)
    requires step.BridgePrepare? && Enabled(sys, step) && Holds(sys, slug, u)
    ensures !Holds(Next(sys, step).0, slug, u) <==> TakesAway(sys, step, slug, u)
  {
  }

  lemma IdTakenByServer(sys: Sys, step: Step, slug: Slug, u: SessionId)
    requires (step.BridgeFresh? || step.Reactivation?) && Inv(sys) && Enabled(sys, step) && Holds(sys, slug, u)
    ensures !Holds(Next(sys, step).0, slug, u) <==> TakesAway(sys, step, slug, u)
  {
  }

  lemma IdStays(sys: Sys, step: Step, slug: Slug, u: SessionId)
    requires Enabled(sys, step) && Holds(sys, slug, u)
    requires !Claiming(step) && !step.MarkDone? && !step.BindHere? && !step.BackgroundWrites? && !step.SpawnFails?
    requires !step.BridgeFresh? && !step.Reactivation?
    ensures Holds(Next(sys, step).0, slug, u)
  {
  }

  /** A rollback never erases an id that another process allocated. */
  lemma RollbackErasesOnlyItsOwn(sys: Sys, pid: nat, slug: Slug, u: SessionId)
    requires Inv(sys) && Enabled(sys, SpawnFails(pid)) && Holds(sys, slug, u)
    ensures !Holds(Next(sys, SpawnFails(pid)).0, slug, u) ==> u in sys.minted && sys.minted[u] == pid
  {
    IdTakenExactlyBy(sys, SpawnFails(pid), slug, u);
    assert OwnClaim(sys, pid);
  }

  // ----- leaving done -----

  /** The steps that move a finished task out of done. */
  predicate Reopens(sys: Sys, step: Step, slug: Slug)
    requires slug in sys.rows
  {
    var r := sys.rows[slug];
    match step
    case SetStatus(s, status) => s == slug && (status == Backlog || (status == InProgress && r.sid.Some?))
    case ReviewReopens(s) => s == slug
    case SpawnFails(pid) =>
      && pid in sys.procs && sys.procs[pid].Pending? && sys.procs[pid].slug == slug
      && sys.procs[pid].claim.bootstrapped
      && (if sys.procs[pid].claim.provider == Claude then sys.procs[pid].claim.sid == r.sid
          else r.provider == Codex && r.sid.None?)
    case BridgePrepare(_, s, allowed, _) => s == slug && allowed
    case Reactivation(s, _, _) => s == slug
    case _ => false
  }

  predicate IsDone(sys: Sys, slug: Slug) {
    slug in sys.rows && sys.rows[slug].status == Done
  }

  /** A finished task leaves done exactly by a status update, a review, a terminal that the
      server opens on it, a reactivation, or the late rollback of a process whose claim the row
      still carries; `flow do` never reopens it. */
  lemma DoneLeftExactlyBy(sys: Sys, step: Step, slug: Slug)
    requires Inv(sys) && Enabled(sys, step) && IsDone(sys, slug)
    ensures !IsDone(Next(sys, step).0, slug) <==> Reopens(sys, step, slug)
  {
    match step
    case MarkDone(s, current, captured) => if s in sys.rows { DoneNeedsSession(sys.rows, s, current, captured); }
    case SpawnFails(pid) => DoneLeftByRollback(sys, pid, slug);
    case Begin(_, _, _, _) => DoneStays(sys, step, slug);
    case BindHere(_, _, _, _) => DoneStays(sys, step, slug);
    case BackgroundWrites(_, _) => DoneStays(sys, step, slug);
    case BridgePrepare(_, _, _, _) => DoneLeftByServer(sys, step, slug);
    case Reactivation(_, _, _) => DoneLeftByServer(sys, step, slug);
    case _ => DoneLeftOtherwise(sys, step, slug);
  }

  lemma DoneLeftByRollback(sys: Sys, pid: nat, slug: Slug)
    requires Inv(sys) && Enabled(sys, SpawnFails(pid)) && IsDone(sys, slug)
    ensures !IsDone(Next(sys, SpawnFails(pid)).0, slug) <==> Reopens(sys, SpawnFails(pid), slug)
  {
    assert OwnClaim(sys, pid);
  }

  lemma DoneStays(sys: Sys, step: Step, slug: Slug)
    requires Enabled(sys, step) && IsDone(sys, slug) && (step.Begin? || step.BindHere? || step.BackgroundWrites?)
    ensures IsDone(Next(sys, step).0, slug)
  {
  }

  lemma DoneLeftByServer(sys: Sys, step: Step, slug: Slug)
    requires Inv(sys) && Enabled(sys, step) && IsDone(sys, slug) && (step.BridgePrepare? || step.Reactivation?)
    ensures !IsDone(Next(sys, step).0, slug) <==> Reopens(sys, step, slug)
  {
  }

  lemma DoneLeftOtherwise(sys: Sys, step: Step, slug: Slug)
    requires Inv(sys) && Enabled(sys, step) && IsDone(sys, slug)
    requires !step.MarkDone? && !step.SpawnFails? && !Claiming(step) && !step.BindHere? && !step.BackgroundWrites?
    requires !step.Reactivation?
    ensures !IsDone(Next(sys, step).0, slug) <==> Reopens(sys, step, slug)
  {
  }

  // ----- calm stretches -----

  /** A step that, on this task, is none of --fresh, --here --force, a background write, a
      rollback, the end of its session, a switch of it from Claude to Codex, and, on the server,
      none of opening the overview, a fresh restart and a reactivation. */
  predicate Calm(sys: Sys, step: Step, slug: Slug) {
    match step
    case Begin(_, s, args, _) => s == slug ==> !args.startFresh && args.requested != Some(Codex)
    case BindHere(s, force, provider, sid) => s == slug ==> !force && (provider, sid) !in sys.released
    case BackgroundWrites(pid, _) => pid in sys.procs ==> sys.procs[pid].slug != slug
    case SpawnFails(pid) => pid in sys.procs ==> sys.procs[pid].slug != slug
    case SetAgent(s, provider) => s == slug ==> provider == Claude
    case SessionEnds(provider, sid) => !(Holds(sys, slug, sid) && sys.rows[slug].provider == provider)
    case BridgePrepare(_, s, _, _) => s == slug ==> slug != OVERVIEW
    case BridgeFresh(s, _) => s != slug
    case Reactivation(s, _, _) => s != slug
    case _ => true
  }

  predicate CalmRun(sys: Sys, steps: seq<Step>, slug: Slug)
    requires EnabledRun(sys, steps)
    decreases |steps|
  {
    steps == [] || (Calm(sys, steps[0], slug) && CalmRun(Next(sys, steps[0]).0, steps[1..], slug))
  }

  /** The claims made on a task along a run, in order. */
  function Claims(sys: Sys, steps: seq<Step>, slug: Slug): seq<Claim>
    requires EnabledRun(sys, steps)
    decreases |steps|
  {
    if steps == [] then []
    else
      var after := Next(sys, steps[0]).0;
      var first :=
        if Claiming(steps[0]) && steps[0].slug == slug && after.procs[steps[0].pid].Pending?
        then [after.procs[steps[0].pid].claim] else [];
      first + Claims(after, steps[1..], slug)
  }

  /** The task is bound to a live session, or is a Claude task without one. */
  predicate Settled(sys: Sys, slug: Slug) {
    slug in sys.rows &&
    match sys.rows[slug].sid
    case Some(u) => (sys.rows[slug].provider, u) !in sys.released
    case None => sys.rows[slug].provider == Claude
  }

  /** One calm step: a bound task stays bound to the same id and any claim resumes it; an
      unbound one either stays unbound, or is bound once, by a bootstrap or --here. */
  lemma CalmStep(sys: Sys, step: Step, slug: Slug)
    requires Inv(sys) && Enabled(sys, step) && Settled(sys, slug) && Calm(sys, step, slug)
    ensures CalmEffect(sys, step, slug)
  {
    if step.Begin? {
      CalmBegin(sys, step, slug);
    } else if step.BridgePrepare? {
      CalmPrepare(sys, step, slug);
    } else {
      CalmOther(sys, step, slug);
    }
  }

  predicate CalmEffect(sys: Sys, step: Step, slug: Slug)
    requires Enabled(sys, step) && slug in sys.rows
  {
    var after := Next(sys, step).0;
    && Settled(after, slug)
    && (sys.rows[slug].sid.Some? ==>
         after.rows[slug].sid == sys.rows[slug].sid && after.rows[slug].provider == sys.rows[slug].provider)
    && (Claiming(step) && step.slug == slug && after.procs[step.pid].Pending? ==>
         && after.procs[step.pid].claim.sid.Some?
         && after.procs[step.pid].claim.sid == after.rows[slug].sid
         && (after.procs[step.pid].claim.bootstrapped <==> sys.rows[slug].sid.None?))
  }

  lemma CalmBegin(sys: Sys, step: Step, slug: Slug)
    requires step.Begin? && Enabled(sys, step) && Settled(sys, slug) && Calm(sys, step, slug)
    ensures CalmEffect(sys, step, slug)
  {
  }

  lemma CalmPrepare(sys: Sys, step: Step, slug: Slug)
    requires step.BridgePrepare? && Enabled(sys, step) && Settled(sys, slug) && Calm(sys, step, slug)
    ensures CalmEffect(sys, step, slug)
  {
  }

  lemma CalmOther(sys: Sys, step: Step, slug: Slug)
    requires Inv(sys) && !Claiming(step) && Enabled(sys, step) && Settled(sys, slug) && Calm(sys, step, slug)
    ensures CalmEffect(sys, step, slug)
  {
    if step.MarkDone? {
      CalmDone(sys, step, slug);
    } else if step.BindHere? || step.BackgroundWrites? || step.SpawnFails? {
      CalmWrite(sys, step, slug);
    }
  }

  lemma CalmDone(sys: Sys, step: Step, slug: Slug)
    requires Inv(sys) && step.MarkDone? && Settled(sys, slug)
    ensures CalmEffect(sys, step, slug)
  {
    if step.slug in sys.rows {
      DoneNeedsSession(sys.rows, step.slug, step.current, step.captured);
      DoneKeepsProvider(sys.rows, step.slug, step.current, step.captured);
    }
  }

  lemma CalmWrite(sys: Sys, step: Step, slug: Slug)
    requires step.BindHere? || step.BackgroundWrites? || step.SpawnFails?
    requires Enabled(sys, step) && Settled(sys, slug) && Calm(sys, step, slug)
    ensures CalmEffect(sys, step, slug)
  {
  }

  /** Every claim carries id `sid`, and none after the first `boots` ones bootstraps. */
  predicate Agree(claims: seq<Claim>, sid: Option<SessionId>, boots: nat) {
    forall i :: 0 <= i < |claims| ==>
      claims[i].sid.Some? && claims[i].sid == sid && (claims[i].bootstrapped ==> i < boots)
  }

  lemma AgreeCons(c: Claim, rest: seq<Claim>, sid: Option<SessionId>, boots: nat)
    requires c.sid.Some? && c.sid == sid && (c.bootstrapped ==> boots > 0) && Agree(rest, sid, 0)
    ensures Agree([c] + rest, sid, boots)
  {
    assert forall i :: 0 < i < |[c] + rest| ==> ([c] + rest)[i] == rest[i - 1];
  }

  /** In any calm stretch on a Claude task, only the first claim may bootstrap, only if the
      task had no session before, and every claim launches with exactly the id the row still
      carries at the end. */
  lemma {:induction false} CalmStretch(sys: Sys, steps: seq<Step>, slug: Slug)
    requires Inv(sys) && EnabledRun(sys, steps) && CalmRun(sys, steps, slug) && Settled(sys, slug)
    ensures Settled(Run(sys, steps), slug)
    ensures sys.rows[slug].sid.Some? ==> Run(sys, steps).rows[slug].sid == sys.rows[slug].sid
    ensures Agree(Claims(sys, steps, slug), Run(sys, steps).rows[slug].sid, if sys.rows[slug].sid.None? then 1 else 0)
    decreases |steps|
  {
    if steps != [] {
      var next := Next(sys, steps[0]).0;
      StepKeepsInv(sys, steps[0]);
      CalmStep(sys, steps[0], slug);
      CalmStretch(next, steps[1..], slug);
      var rest, end := Claims(next, steps[1..], slug), Run(next, steps[1..]).rows[slug].sid;
      if Claiming(steps[0]) && steps[0].slug == slug && next.procs[steps[0].pid].Pending? {
        AgreeCons(next.procs[steps[0].pid].claim, rest, end, if sys.rows[slug].sid.None? then 1 else 0);
      } else {
        assert Claims(sys, steps, slug) == rest;
      }
    }
  }

  // ----- what the protocol does not promise -----

  /** The process bootstrapped a session that is up, yet its task is back in the backlog. */
  predicate LostLaunch(sys: Sys, slug: Slug, pid: nat) {
    && pid in sys.procs && sys.procs[pid].Launched? && sys.procs[pid].slug == slug
    && sys.procs[pid].claim.bootstrapped
    && slug in sys.rows && sys.rows[slug].status == Backlog && !sys.rows[slug].started
  }

  /** Codex rollbacks are guarded by "no id yet" only, so one process's failed spawn can send
      a task back to the backlog while another process's Codex session is already up. */
  lemma CodexRollbackHitsAnotherClaim()
    ensures exists steps: seq<Step> :: EnabledRun(EMPTY, steps) && LostLaunch(Run(EMPTY, steps), "t", 1)
  {
    FirstThreeSteps();
    LastTwoSteps();
    var steps := [AddTask("t", Codex), Begin(0, "t", PLAIN, 10), Begin(1, "t", PLAIN, 11), SpawnSucceeds(1), SpawnFails(0)];
    FiveSteps(EMPTY, steps[0], TwoClaim(0), steps[1], TwoClaim(1), steps[2], TwoClaim(2), steps[3],
              Next(TwoClaim(2), SpawnSucceeds(1)).0, steps[4]);
    assert [steps[0], steps[1], steps[2], steps[3], steps[4]] == steps;
  }

  const PLAIN := DoArgs(false, None)

  /** One Codex task, and the first n of two processes that have claimed it. */
  function TwoClaim(n: nat): Sys {
    var claim := Pending("t", Claim(true, Codex, None));
    Sys(map["t" := if n == 0 then Row(Backlog, Codex, None, false) else Row(InProgress, Codex, None, true)],
        {}, if n == 0 then map[] else if n == 1 then map[0 := claim] else map[0 := claim, 1 := claim], map[])
  }

  lemma FirstThreeSteps()
    ensures Next(EMPTY, AddTask("t", Codex)).0 == TwoClaim(0)
    ensures Enabled(TwoClaim(0), Begin(0, "t", PLAIN, 10)) && Next(TwoClaim(0), Begin(0, "t", PLAIN, 10)).0 == TwoClaim(1)
    ensures Enabled(TwoClaim(1), Begin(1, "t", PLAIN, 11)) && Next(TwoClaim(1), Begin(1, "t", PLAIN, 11)).0 == TwoClaim(2)
  {
  }

  lemma LastTwoSteps()
    ensures Enabled(TwoClaim(2), SpawnSucceeds(1))
    ensures var up := Next(TwoClaim(2), SpawnSucceeds(1)).0;
      Enabled(up, SpawnFails(0)) && LostLaunch(Next(up, SpawnFails(0)).0, "t", 1)
  {
  }

  lemma FiveSteps(a: Sys, s0: Step, b: Sys, s1: Step, c: Sys, s2: Step, d: Sys, s3: Step, e: Sys, s4: Step)
    requires Enabled(a, s0) && Next(a, s0).0 == b
    requires Enabled(b, s1) && Next(b, s1).0 == c
    requires Enabled(c, s2) && Next(c, s2).0 == d
    requires Enabled(d, s3) && Next(d, s3).0 == e
    requires Enabled(e, s4)
    ensures EnabledRun(a, [s0, s1, s2, s3, s4]) && Run(a, [s0, s1, s2, s3, s4]) == Next(e, s4).0
  {
    assert Run(Next(e, s4).0, []) == Next(e, s4).0;
    RunUnfolds(e, s4, []);
    RunUnfolds(d, s3, [s4]);
    RunUnfolds(c, s2, [s3, s4]);
    RunUnfolds(b, s1, [s2, s3, s4]);
    RunUnfolds(a, s0, [s1, s2, s3, s4]);
    assert [s4] + [] == [s4] && [s3] + [s4] == [s3, s4] && [s2] + [s3, s4] == [s2, s3, s4];
    assert [s1] + [s2, s3, s4] == [s1, s2, s3, s4] && [s0] + [s1, s2, s3, s4] == [s0, s1, s2, s3, s4];
  }

  lemma RunUnfolds(sys: Sys, step: Step, rest: seq<Step>)
    requires Enabled(sys, step) && EnabledRun(Next(sys, step).0, rest)
    ensures EnabledRun(sys, [step] + rest)
    ensures Run(sys, [step] + rest) == Run(Next(sys, step).0, rest)
  {
    assert ([step] + rest)[1..] == rest;
  }

  /** A background launch writes without rereading. What its late write does to an id that the
      row holds by then, exactly. */
  lemma BackgroundReplacesExactly(sys: Sys, pid: nat, sid: SessionId, slug: Slug, u: SessionId)
    requires Inv(sys) && Enabled(sys, BackgroundWrites(pid, sid)) && Holds(sys, slug, u) && sid != u
    ensures Holds(Next(sys, BackgroundWrites(pid, sid)).0, slug, sid) <==>
      sys.procs[pid].slug == slug && sys.rows[slug].status != Done && !HeldElsewhere(sys.rows, slug, sid)
    ensures Holds(Next(sys, BackgroundWrites(pid, sid)).0, slug, sid) <==> !Holds(Next(sys, BackgroundWrites(pid, sid)).0, slug, u)
  {
    IdTakenExactlyBy(sys, BackgroundWrites(pid, sid), slug, u);
  }

  /** The process is about to launch with an id it minted, and its task holds another one. */
  predicate ClaimReplaced(sys: Sys, slug: Slug, pid: nat) {
    && pid in sys.procs && sys.procs[pid].Pending? && sys.procs[pid].slug == slug
    && sys.procs[pid].claim.bootstrapped && sys.procs[pid].claim.sid.Some?
    && slug in sys.rows && sys.rows[slug].sid.Some? && sys.rows[slug].sid != sys.procs[pid].claim.sid
  }

  /** So it can replace the id that a `flow do` claimed meanwhile: a run of four steps. */
  lemma BackgroundReplacesClaim()
    ensures exists steps: seq<Step> :: EnabledRun(EMPTY, steps) && ClaimReplaced(Run(EMPTY, steps), "t", 1)
  {
    var a, b, c := OneTask(map[], map[]), OneTask(map[0 := Launching("t", true, Claude)], map[]), Overtaken();
    BackgroundThenDo();
    assert Run(Next(c, BackgroundWrites(0, 12)).0, []) == Next(c, BackgroundWrites(0, 12)).0;
    RunUnfolds(c, BackgroundWrites(0, 12), []);
    RunUnfolds(b, Begin(1, "t", PLAIN, 11), [BackgroundWrites(0, 12)]);
    RunUnfolds(a, BackgroundReads(0, "t", None, false), [Begin(1, "t", PLAIN, 11)] + [BackgroundWrites(0, 12)]);
    RunUnfolds(EMPTY, AddTask("t", Claude),
               [BackgroundReads(0, "t", None, false)] + ([Begin(1, "t", PLAIN, 11)] + [BackgroundWrites(0, 12)]));
    assert [BackgroundWrites(0, 12)] + [] == [BackgroundWrites(0, 12)];
  }

  /** A Claude task without a session. */
  function OneTask(procs: map<nat, Proc>, minted: map<SessionId, nat>): Sys {
    Sys(map["t" := Row(Backlog, Claude, None, false)], {}, procs, minted)
  }

  /** A background launch under way, and a `flow do` that has claimed the task since. */
  function Overtaken(): Sys {
    Sys(map["t" := Row(InProgress, Claude, Some(11), true)], {},
        map[0 := Launching("t", true, Claude), 1 := Pending("t", Claim(true, Claude, Some(11)))], map[11 := 1])
  }

  lemma BackgroundThenDo()
    ensures Next(EMPTY, AddTask("t", Claude)).0 == OneTask(map[], map[])
    ensures var read := OneTask(map[0 := Launching("t", true, Claude)], map[]);
      && Enabled(OneTask(map[], map[]), BackgroundReads(0, "t", None, false))
      && Next(OneTask(map[], map[]), BackgroundReads(0, "t", None, false)).0 == read
      && Enabled(read, Begin(1, "t", PLAIN, 11)) && Next(read, Begin(1, "t", PLAIN, 11)).0 == Overtaken()
    ensures Enabled(Overtaken(), BackgroundWrites(0, 12)) && ClaimReplaced(Next(Overtaken(), BackgroundWrites(0, 12)).0, "t", 1)
  {
  }

  // ----- when a Codex rollback hits another claim -----

  /** The process has bootstrapped a Codex session, or is about to. */
  predicate CodexBoot(p: Proc) {
    (p.Pending? || p.Launched?) && p.claim.bootstrapped && p.claim.provider == Codex
  }

  /** A failed spawn and another process's Codex claim on a task that has no id yet: the task
      goes back to the backlog exactly when the failing process had bootstrapped a Codex session
      on it too, and otherwise its row stays as it is. */
  lemma CodexRollbackExactly(sys: Sys, pid: nat, q: nat)
    requires Inv(sys) && Enabled(sys, SpawnFails(pid)) && q != pid && q in sys.procs && CodexBoot(sys.procs[q])
    requires var slug := sys.procs[q].slug;
      slug in sys.rows && sys.rows[slug].status == InProgress && sys.rows[slug].sid.None?
    ensures var slug, after := sys.procs[q].slug, Next(sys, SpawnFails(pid)).0.rows;
      && slug in after
      && (after[slug].status == Backlog <==> sys.procs[pid].slug == slug && CodexBoot(sys.procs[pid]))
      && (after[slug].status != Backlog ==> after[slug] == sys.rows[slug])
  {
    assert OwnClaim(sys, pid);
    assert Check(sys.rows[sys.procs[q].slug]);
  }

  /** The claim still counts: its spawn is undecided, or its session is up and no id has been
      recorded for the task. */
  predicate Standing(sys: Sys, p: nat) {
    p in sys.procs && CodexBoot(sys.procs[p]) &&
    (sys.procs[p].Pending? || (sys.procs[p].slug in sys.rows ==> sys.rows[sys.procs[p].slug].sid.None?))
  }

  /** The step bootstraps a Codex session. */
  predicate BootsCodex(sys: Sys, step: Step)
    requires Enabled(sys, step)
  {
    Claiming(step) && CodexBoot(Next(sys, step).0.procs[step.pid])
  }

  /** The standing Codex claims after a step, given those before it. A claim whose session was
      up when an id was recorded never counts again. */
  function Live(sys: Sys, step: Step, live: set<nat>): set<nat>
    requires Enabled(sys, step)
  {
    set p | p in live + (if BootsCodex(sys, step) then {step.pid} else {}) && Standing(Next(sys, step).0, p)
  }

  predicate Tracks(sys: Sys, live: set<nat>) {
    && (forall p :: p in live ==> p in sys.procs && CodexBoot(sys.procs[p]))
    && (forall p :: p in sys.procs && sys.procs[p].Pending? && CodexBoot(sys.procs[p]) ==> p in live)
  }

  /** No two standing claims on one task. */
  predicate Solo(sys: Sys, live: set<nat>) {
    forall p, q :: p in live && q in live && p in sys.procs && q in sys.procs && sys.procs[p].slug == sys.procs[q].slug ==> p == q
  }

  /** A Codex session is bootstrapped only on a task without a standing Codex claim. */
  predicate Alone(sys: Sys, step: Step, live: set<nat>)
    requires Enabled(sys, step)
  {
    BootsCodex(sys, step) ==> forall q :: q in live && q in sys.procs ==> sys.procs[q].slug != step.slug
  }

  /** The failed spawn touches no other process's task that has a standing Codex claim and no id. */
  predicate Clean(sys: Sys, pid: nat, live: set<nat>)
    requires Enabled(sys, SpawnFails(pid))
  {
    forall q :: q in live && q != pid && q in sys.procs && sys.procs[q].slug in sys.rows && sys.rows[sys.procs[q].slug].sid.None? ==>
      var slug, after := sys.procs[q].slug, Next(sys, SpawnFails(pid)).0.rows;
      slug in after && after[slug] == sys.rows[slug]
  }

  lemma SoloIsClean(sys: Sys, pid: nat, live: set<nat>)
    requires Inv(sys) && Enabled(sys, SpawnFails(pid)) && Tracks(sys, live) && Solo(sys, live)
    ensures Clean(sys, pid, live)
  {
    assert OwnClaim(sys, pid);
  }

  /** The other processes are as they were, and the acting one keeps its task. */
  lemma OthersUntouched(sys: Sys, step: Step, q: nat)
    requires Enabled(sys, step) && q in sys.procs
    ensures q in Next(sys, step).0.procs && Next(sys, step).0.procs[q].slug == sys.procs[q].slug
    ensures CodexBoot(sys.procs[q]) && sys.procs[q].Pending? && Next(sys, step).0.procs[q].Pending? ==>
      Next(sys, step).0.procs[q] == sys.procs[q]
    ensures CodexBoot(Next(sys, step).0.procs[q]) ==> CodexBoot(sys.procs[q])
    ensures Next(sys, step).0.procs[q].Pending? ==> sys.procs[q].Pending?
  {
  }

  lemma NewProcess(sys: Sys, step: Step, q: nat)
    requires Enabled(sys, step) && q !in sys.procs && q in Next(sys, step).0.procs && CodexBoot(Next(sys, step).0.procs[q])
    ensures BootsCodex(sys, step) && q == step.pid && Next(sys, step).0.procs[q].slug == step.slug
  {
  }

  lemma LiveTracks(sys: Sys, step: Step, live: set<nat>)
    requires Enabled(sys, step) && Tracks(sys, live)
    ensures Tracks(Next(sys, step).0, Live(sys, step, live))
  {
    var after := Next(sys, step).0;
    forall p | p in after.procs && after.procs[p].Pending? && CodexBoot(after.procs[p]) ensures p in Live(sys, step, live) {
      if p in sys.procs { OthersUntouched(sys, step, p); } else { NewProcess(sys, step, p); }
    }
  }

  lemma AloneKeepsSolo(sys: Sys, step: Step, live: set<nat>)
    requires Enabled(sys, step) && Tracks(sys, live) && Solo(sys, live) && Alone(sys, step, live)
    ensures Tracks(Next(sys, step).0, Live(sys, step, live)) && Solo(Next(sys, step).0, Live(sys, step, live))
  {
    LiveTracks(sys, step, live);
    var after, next := Next(sys, step).0, Live(sys, step, live);
    forall p | p in next ensures if p in live then after.procs[p].slug == sys.procs[p].slug else BootsCodex(sys, step) && p == step.pid && after.procs[p].slug == step.slug {
      if p in live { OthersUntouched(sys, step, p); } else { NewProcess(sys, step, p); }
    }
  }

  /** A claim on a task that already has a standing one: its own failure would hit that one. */
  lemma CrowdedIsNotClean(sys: Sys, step: Step, live: set<nat>)
    requires Inv(sys) && Enabled(sys, step) && Tracks(sys, live) && !Alone(sys, step, live)
    ensures BootsCodex(sys, step) && Enabled(Next(sys, step).0, SpawnFails(step.pid))
    ensures Tracks(Next(sys, step).0, Live(sys, step, live)) && !Clean(Next(sys, step).0, step.pid, Live(sys, step, live))
  {
    LiveTracks(sys, step, live);
    BootedRow(sys, step);
    var q :| q in live && sys.procs[q].slug == step.slug;
    OthersUntouched(sys, step, q);
    BystandersStay(sys, step, q);
    assert q in Live(sys, step, live);
    var after := Next(sys, step).0;
    FailedBoot(after, step.pid);
    assert Next(after, SpawnFails(step.pid)).0.rows[step.slug] != after.rows[step.slug];
  }

  lemma BystandersStay(sys: Sys, step: Step, q: nat)
    requires Enabled(sys, step) && Claiming(step) && q in sys.procs
    ensures Next(sys, step).0.procs[q] == sys.procs[q]
  {
  }

  lemma BootedRow(sys: Sys, step: Step)
    requires Enabled(sys, step) && BootsCodex(sys, step)
    ensures var after := Next(sys, step).0;
      && after.procs[step.pid].Pending? && after.procs[step.pid].slug == step.slug
      && step.slug in after.rows && after.rows[step.slug] == Row(InProgress, Codex, None, true)
  {
  }

  lemma FailedBoot(sys: Sys, pid: nat)
    requires pid in sys.procs && sys.procs[pid].Pending? && CodexBoot(sys.procs[pid])
    requires sys.procs[pid].slug in sys.rows && sys.rows[sys.procs[pid].slug] == Row(InProgress, Codex, None, true)
    ensures var after := Next(sys, SpawnFails(pid)).0.rows;
      sys.procs[pid].slug in after && after[sys.procs[pid].slug].status == Backlog
  {
  }

  predicate AloneRun(sys: Sys, steps: seq<Step>, live: set<nat>)
    requires EnabledRun(sys, steps)
    decreases |steps|
  {
    steps == [] ||
      (Alone(sys, steps[0], live) && AloneRun(Next(sys, steps[0]).0, steps[1..], Live(sys, steps[0], live)))
  }

  /** Every failed spawn of the run is clean, and so would be the failure of each Codex launch
      had it come at once. */
  predicate CleanRun(sys: Sys, steps: seq<Step>, live: set<nat>)
    requires EnabledRun(sys, steps)
    decreases |steps|
  {
    steps == [] ||
      var next, more := Next(sys, steps[0]).0, Live(sys, steps[0], live);
      && (steps[0].SpawnFails? ==> Clean(sys, steps[0].pid, live))
      && (BootsCodex(sys, steps[0]) && Enabled(next, SpawnFails(steps[0].pid)) ==> Clean(next, steps[0].pid, more))
      && CleanRun(next, steps[1..], more)
  }

  /** No failed spawn ever touches another process's standing Codex claim, at the time or had it
      come at once, exactly when every Codex session of the run is bootstrapped on a task without
      a standing Codex claim: none whose spawn is undecided, and none whose session is up while
      the task has no id. */
  lemma {:induction false} CleanExactlyWhenAlone(sys: Sys, steps: seq<Step>, live: set<nat>)
    requires Inv(sys) && EnabledRun(sys, steps) && Tracks(sys, live) && Solo(sys, live)
    ensures CleanRun(sys, steps, live) <==> AloneRun(sys, steps, live)
    decreases |steps|
  {
    if steps != [] {
      var step := steps[0];
      var next, more := Next(sys, step).0, Live(sys, step, live);
      if step.SpawnFails? { SoloIsClean(sys, step.pid, live); }
      LiveTracks(sys, step, live);
      StepKeepsInv(sys, step);
      if Alone(sys, step, live) {
        AloneKeepsSolo(sys, step, live);
        if BootsCodex(sys, step) {
          BootedRow(sys, step);
          SoloIsClean(next, step.pid, more);
        }
        CleanExactlyWhenAlone(next, steps[1..], more);
      } else {
        CrowdedIsNotClean(sys, step, live);
      }
    }
  }

  /** If the step bootstraps a Codex session, no other Codex spawn on its task is undecided. */
  predicate Quiet(sys: Sys, step: Step)
    requires Enabled(sys, step)
  {
    BootsCodex(sys, step) ==>
      forall q :: q in sys.procs && sys.procs[q].Pending? && CodexBoot(sys.procs[q]) ==> sys.procs[q].slug != step.slug
  }

  predicate NoneUndecided(sys: Sys, steps: seq<Step>)
    requires EnabledRun(sys, steps)
    decreases |steps|
  {
    steps == [] || (Quiet(sys, steps[0]) && NoneUndecided(Next(sys, steps[0]).0, steps[1..]))
  }

  /** Waiting for undecided spawns alone is not enough: a second `flow do` on a task whose Codex
      session is up, but has no id recorded yet, bootstraps another one, and its failure sends
      the task back to the backlog. */
  lemma UndecidedIsNotEnough()
    ensures exists steps: seq<Step> ::
      EnabledRun(EMPTY, steps) && NoneUndecided(EMPTY, steps) && LostLaunch(Run(EMPTY, steps), "t", 0)
  {
    FirstThreeSteps();
    UpThenFailed();
    QuietSteps();
    var s0, s1, s2, s3, s4 := AddTask("t", Codex), Begin(0, "t", PLAIN, 10), SpawnSucceeds(0), Begin(1, "t", PLAIN, 11), SpawnFails(1);
    FiveSteps(EMPTY, s0, TwoClaim(0), s1, TwoClaim(1), s2, UpAndClaimed(false), s3, UpAndClaimed(true), s4);
    FiveQuiet(EMPTY, s0, TwoClaim(0), s1, TwoClaim(1), s2, UpAndClaimed(false), s3, UpAndClaimed(true), s4);
  }

  /** Process 0's Codex session is up; with `again`, process 1 has claimed the task too. */
  function UpAndClaimed(again: bool): Sys {
    var up, claimed := Launched("t", Claim(true, Codex, None)), Pending("t", Claim(true, Codex, None));
    Sys(map["t" := Row(InProgress, Codex, None, true)], {}, if again then map[0 := up, 1 := claimed] else map[0 := up], map[])
  }

  lemma UpThenFailed()
    ensures Enabled(TwoClaim(1), SpawnSucceeds(0)) && Next(TwoClaim(1), SpawnSucceeds(0)).0 == UpAndClaimed(false)
    ensures Enabled(UpAndClaimed(false), Begin(1, "t", PLAIN, 11))
    ensures Next(UpAndClaimed(false), Begin(1, "t", PLAIN, 11)).0 == UpAndClaimed(true)
    ensures Enabled(UpAndClaimed(true), SpawnFails(1)) && LostLaunch(Next(UpAndClaimed(true), SpawnFails(1)).0, "t", 0)
  {
  }

  lemma QuietSteps()
    ensures Enabled(EMPTY, AddTask("t", Codex)) && Quiet(EMPTY, AddTask("t", Codex))
    ensures Enabled(TwoClaim(0), Begin(0, "t", PLAIN, 10)) && Quiet(TwoClaim(0), Begin(0, "t", PLAIN, 10))
    ensures Enabled(UpAndClaimed(false), Begin(1, "t", PLAIN, 11)) && Quiet(UpAndClaimed(false), Begin(1, "t", PLAIN, 11))
  {
  }

  lemma FiveQuiet(a: Sys, s0: Step, b: Sys, s1: Step, c: Sys, s2: Step, d: Sys, s3: Step, e: Sys, s4: Step)
    requires Enabled(a, s0) && Next(a, s0).0 == b && Quiet(a, s0)
    requires Enabled(b, s1) && Next(b, s1).0 == c && Quiet(b, s1)
    requires Enabled(c, s2) && Next(c, s2).0 == d && Quiet(c, s2)
    requires Enabled(d, s3) && Next(d, s3).0 == e && Quiet(d, s3)
    requires Enabled(e, s4) && Quiet(e, s4)
    ensures EnabledRun(a, [s0, s1, s2, s3, s4]) && NoneUndecided(a, [s0, s1, s2, s3, s4])
  {
    ThreeQuiet(c, s2, d, s3, e, s4);
    QuietFirst(b, s1, [s2, s3, s4]);
    QuietFirst(a, s0, [s1, s2, s3, s4]);
    assert [s1] + [s2, s3, s4] == [s1, s2, s3, s4] && [s0] + [s1, s2, s3, s4] == [s0, s1, s2, s3, s4];
  }

  lemma ThreeQuiet(c: Sys, s2: Step, d: Sys, s3: Step, e: Sys, s4: Step)
    requires Enabled(c, s2) && Next(c, s2).0 == d && Quiet(c, s2)
    requires Enabled(d, s3) && Next(d, s3).0 == e && Quiet(d, s3)
    requires Enabled(e, s4) && Quiet(e, s4)
    ensures EnabledRun(c, [s2, s3, s4]) && NoneUndecided(c, [s2, s3, s4])
  {
    QuietFirst(e, s4, []);
    QuietFirst(d, s3, [s4]);
    QuietFirst(c, s2, [s3, s4]);
    assert [s4] + [] == [s4] && [s3] + [s4] == [s3, s4] && [s2] + [s3, s4] == [s2, s3, s4];
  }

  lemma QuietFirst(sys: Sys, step: Step, rest: seq<Step>)
    requires Enabled(sys, step) && EnabledRun(Next(sys, step).0, rest) && NoneUndecided(Next(sys, step).0, rest)
    requires Quiet(sys, step)
    ensures EnabledRun(sys, [step] + rest) && NoneUndecided(sys, [step] + rest)
  {
    assert ([step] + rest)[1..] == rest;
  }
}
