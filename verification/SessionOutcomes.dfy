/** What each step of the session protocol leaves, column by column: when it takes effect, the
    row it leaves, and that every other row stays. */
module SessionOutcomes {
  import opened Text
  import opened Graphs
  import opened TaskTables
  import opened Sessions
  import opened SessionProtocol

  // ----- flow do -----

  /** A `flow do` makes a claim exactly on an existing task that is not done and whose session, if
      it has one, belongs to the agent asked for or is to be replaced. */
  lemma DoClaimsExactly(sys: Sys, pid: nat, slug: Slug, args: DoArgs, uuid: SessionId)
    requires Inv(sys) && Enabled(sys, Begin(pid, slug, args, uuid))
    ensures var after := Next(sys, Begin(pid, slug, args, uuid)).0;
      && pid in after.procs
      && (after.procs[pid].Pending? <==>
            && slug in sys.rows && sys.rows[slug].status != Done
            && (sys.rows[slug].sid.None? || args.startFresh || args.requested == None || args.requested == Some(sys.rows[slug].provider)))
      && (!after.procs[pid].Pending? ==> after == sys.(procs := sys.procs[pid := Failed(slug)]))
  {
    UnseenHeldNowhere(sys, slug, uuid);
  }

  lemma UnseenHeldNowhere(sys: Sys, slug: Slug, uuid: SessionId)
    requires Unseen(sys, uuid)
    ensures !HeldElsewhere(sys.rows, slug, uuid)
  {
  }

  /** A task with a session of the right agent that nobody released, and no --fresh: the claim
      resumes that session, and the task is in progress with its other columns as they were. */
  lemma DoResumes(sys: Sys, pid: nat, slug: Slug, args: DoArgs, uuid: SessionId, u: SessionId)
    requires Inv(sys) && Enabled(sys, Begin(pid, slug, args, uuid))
    requires slug in sys.rows && sys.rows[slug].status != Done && sys.rows[slug].sid == Some(u)
    requires !args.startFresh && (args.requested == None || args.requested == Some(sys.rows[slug].provider))
    requires (sys.rows[slug].provider, u) !in sys.released
    ensures var after, r := Next(sys, Begin(pid, slug, args, uuid)).0, sys.rows[slug];
      && after.rows == sys.rows[slug := Row(InProgress, r.provider, Some(u), r.started)]
      && after.procs == sys.procs[pid := Pending(slug, Claim(false, r.provider, Some(u)))]
      && after.minted == sys.minted && after.released == sys.released
  {
    assert !HeldElsewhere(sys.rows, slug, u);
  }

  /** In every other case in which a claim is made it bootstraps: Claude with the new id in the
      row, Codex with none until it is captured. */
  lemma DoBootstraps(sys: Sys, pid: nat, slug: Slug, args: DoArgs, uuid: SessionId)
    requires Inv(sys) && Enabled(sys, Begin(pid, slug, args, uuid))
    requires slug in sys.rows && sys.rows[slug].status != Done
    requires var r := sys.rows[slug];
      r.sid.None? || args.startFresh
      || ((args.requested == None || args.requested == Some(r.provider)) && (r.provider, r.sid.value) in sys.released)
    ensures var after, r := Next(sys, Begin(pid, slug, args, uuid)).0, sys.rows[slug];
      var provider := if args.requested.Some? then args.requested.value else r.provider;
      if provider == Claude then
        && after.rows == sys.rows[slug := Row(InProgress, Claude, Some(uuid), true)]
        && after.procs == sys.procs[pid := Pending(slug, Claim(true, Claude, Some(uuid)))]
        && after.minted == sys.minted[uuid := pid]
      else
        && after.rows == sys.rows[slug := Row(InProgress, Codex, None, true)]
        && after.procs == sys.procs[pid := Pending(slug, Claim(true, Codex, r.sid))]
        && after.minted == sys.minted
  {
    UnseenHeldNowhere(sys, slug, uuid);
  }

  /** Whoever carries a fresh claim, its task is in progress. */
  lemma ClaimedIsInProgress(sys: Sys, step: Step)
    requires Inv(sys) && Enabled(sys, step) && Claiming(step)
    ensures var after := Next(sys, step).0;
      step.pid in after.procs && after.procs[step.pid].Pending? ==>
        step.slug in after.rows && after.rows[step.slug].status == InProgress
  {
  }

  /** A failed spawn takes back a bootstrap, and only that: a Claude claim while the row still has
      its id, a Codex claim while the row is Codex and has none. */
  lemma RollbackLeaves(sys: Sys, pid: nat)
    requires Inv(sys) && Enabled(sys, SpawnFails(pid))
    ensures var after, slug, claim := Next(sys, SpawnFails(pid)).0, sys.procs[pid].slug, sys.procs[pid].claim;
      && after.procs == sys.procs[pid := Failed(slug)]
      && after.rows ==
           if slug in sys.rows && claim.bootstrapped && sys.rows[slug].provider == Codex == claim.provider && sys.rows[slug].sid.None? then
             sys.rows[slug := Row(Backlog, Codex, None, false)]
           else if slug in sys.rows && claim.bootstrapped && claim.provider == Claude && sys.rows[slug].sid == claim.sid then
             sys.rows[slug := Row(Backlog, sys.rows[slug].provider, None, false)]
           else sys.rows
  {
    assert OwnClaim(sys, pid);
  }

  // ----- the other ways to bind a session -----

  /** --here binds exactly a task that is not done, to a session no other task has, when it has no
      session yet or --force replaces a different one. */
  lemma HereLeaves(sys: Sys, slug: Slug, force: bool, provider: Provider, sid: SessionId)
    ensures var after := Next(sys, BindHere(slug, force, provider, sid)).0;
      after == sys.(rows :=
        if slug in sys.rows && sys.rows[slug].status != Done
           && (forall t :: t in sys.rows && t != slug ==> sys.rows[t].sid != Some(sid))
           && (sys.rows[slug].sid.None? || (force && (sys.rows[slug].sid != Some(sid) || sys.rows[slug].provider != provider)))
        then sys.rows[slug := Row(InProgress, provider, Some(sid), true)] else sys.rows)
  {
  }

  /** The late write of a background launch, on a task that is not done, of an id no other task
      has. */
  lemma BackgroundLeaves(sys: Sys, pid: nat, sid: SessionId)
    requires Inv(sys) && Enabled(sys, BackgroundWrites(pid, sid))
    ensures var after, p := Next(sys, BackgroundWrites(pid, sid)).0, sys.procs[pid];
      after == sys.(
        procs := sys.procs[pid := Recorded(p.slug)],
        rows :=
          if p.slug in sys.rows && sys.rows[p.slug].status != Done
             && (forall t :: t in sys.rows && t != p.slug ==> sys.rows[t].sid != Some(sid))
          then sys.rows[p.slug := Row(InProgress, p.provider, Some(sid), p.bootstrapping || sys.rows[p.slug].started)]
          else sys.rows)
  {
  }

  /** What a background launch decided when it read the row. */
  lemma BackgroundDecides(sys: Sys, pid: nat, slug: Slug, requested: Option<Provider>, startFresh: bool)
    requires Enabled(sys, BackgroundReads(pid, slug, requested, startFresh))
    ensures var r := sys.rows[slug];
      Next(sys, BackgroundReads(pid, slug, requested, startFresh)).0 == sys.(
        procs := sys.procs[pid := Launching(slug, startFresh || r.sid == None, if requested.Some? then requested.value else r.provider)])
  {
  }

  /** A capture records an id exactly on a Codex row that has none or this one, when no other task
      has it; the status stays. */
  lemma CaptureLeaves(sys: Sys, slug: Slug, candidate: SessionId)
    requires Inv(sys)
    ensures var after := Next(sys, CaptureId(slug, candidate)).0;
      after == sys.(rows :=
        if slug in sys.rows && sys.rows[slug].provider == Codex
           && (sys.rows[slug].sid.None? || sys.rows[slug].sid == Some(candidate))
           && (forall t :: t in sys.rows && t != slug ==> sys.rows[t].sid != Some(candidate))
        then sys.rows[slug := Row(sys.rows[slug].status, Codex, Some(candidate), true)] else sys.rows)
  {
  }

  // ----- flow done -----

  /** The id a task carries once `flow done` has finished it: its own, else that of the Codex
      session it runs in, else the captured one. */
  function DoneId(r: Row, current: Option<SessionId>, captured: Option<SessionId>): Option<SessionId> {
    if r.sid.Some? then r.sid else if current.Some? then current else captured
  }

  /** `flow done` finishes an open task exactly when it carries an id, or is a Codex task in
      progress and gets one that no other task has: that of the surrounding session, or, outside
      one, what a capture finds for a started task. It changes nothing else of the row but that a
      newly bound session has started. */
  lemma DoneFinishesExactly(sys: Sys, slug: Slug, current: Option<SessionId>, captured: Option<SessionId>)
    requires Inv(sys) && slug in sys.rows && sys.rows[slug].status != Done
    ensures var after, r := Next(sys, MarkDone(slug, current, captured)).0, sys.rows[slug];
      && slug in after.rows
      && (after.rows[slug].status == Done <==>
            || r.sid.Some?
            || (r.provider == Codex && r.status == InProgress
                && (current.Some? || (r.started && captured.Some?))
                && forall t :: t in sys.rows && t != slug ==> sys.rows[t].sid != DoneId(r, current, captured)))
      && (after.rows[slug].status == Done ==>
            after.rows[slug] == Row(Done, r.provider, DoneId(r, current, captured), r.started || r.sid.None?))
  {
    if sys.rows[slug].sid.Some? {
      assert !HeldElsewhere(sys.rows, slug, sys.rows[slug].sid.value);
    } else {
      assert Check(sys.rows[slug]);
      DoneUnbound(sys.rows, slug, current, captured);
    }
  }

  lemma DoneUnbound(rows: Rows, slug: Slug, current: Option<SessionId>, captured: Option<SessionId>)
    requires slug in rows && Check(rows[slug]) && rows[slug].status != Done && rows[slug].sid.None?
    ensures var after, r, id := FinishTask(rows, slug, current, captured).0, rows[slug], if current.Some? then current else captured;
      && slug in after
      && (after[slug].status == Done <==>
            r.status == InProgress && (current.Some? || (r.started && captured.Some?)) && id.Some? && !HeldElsewhere(rows, slug, id.value))
      && (after[slug].status == Done ==> r.provider == Codex && after[slug] == Row(Done, Codex, id, true))
  {
    if rows[slug].status == InProgress {
      if current.Some? {
        DoneBound(rows, slug, current.value, captured);
      } else if rows[slug].started && captured.Some? {
        DoneCaptured(rows, slug, captured.value);
      }
    }
  }

  /** Binding moves no id of another task. */
  lemma HeldAfterBinding(rows: Rows, slug: Slug, row: Row, sid: SessionId)
    ensures HeldElsewhere(rows[slug := row], slug, sid) <==> HeldElsewhere(rows, slug, sid)
  {
    var after := rows[slug := row];
    assert forall t :: t != slug ==> (t in after <==> t in rows) && (t in rows ==> after[t] == rows[t]);
  }

  lemma DoneBound(rows: Rows, slug: Slug, current: SessionId, captured: Option<SessionId>)
    requires slug in rows && rows[slug].provider == Codex && rows[slug].status == InProgress && rows[slug].sid.None?
    ensures FinishTask(rows, slug, Some(current), captured).0 ==
      if HeldElsewhere(rows, slug, current) then rows else rows[slug := Row(Done, Codex, Some(current), true)]
  {
    var bound := rows[slug := Row(InProgress, Codex, Some(current), true)];
    HeldAfterBinding(rows, slug, bound[slug], current);
    if !HeldElsewhere(rows, slug, current) {
      assert DoneBind(rows, slug, Some(current)) == (bound, Applied);
      assert bound[slug := bound[slug]] == bound;
      assert DoneCapture(bound, slug, captured).0 == bound && !Broken(DoneCapture(bound, slug, captured).1);
      assert bound[slug := Row(Done, Codex, Some(current), true)] == rows[slug := Row(Done, Codex, Some(current), true)];
    }
  }

  lemma DoneCaptured(rows: Rows, slug: Slug, captured: SessionId)
    requires slug in rows && rows[slug].provider == Codex && rows[slug].status == InProgress && rows[slug].sid.None? && rows[slug].started
    ensures FinishTask(rows, slug, None, Some(captured)).0 ==
      if HeldElsewhere(rows, slug, captured) then rows else rows[slug := Row(Done, Codex, Some(captured), true)]
  {
    var found := rows[slug := Row(InProgress, Codex, Some(captured), true)];
    HeldAfterBinding(rows, slug, found[slug], captured);
    if !HeldElsewhere(rows, slug, captured) {
      assert DoneCapture(rows, slug, Some(captured)) == (found, Applied);
      assert found[slug := Row(Done, Codex, Some(captured), true)] == rows[slug := Row(Done, Codex, Some(captured), true)];
    }
  }

  // ----- status, agent, review, creation -----

  /** A status is set exactly on an existing task, and anything but backlog only with a session. */
  lemma StatusLeaves(sys: Sys, slug: Slug, status: Status)
    requires Inv(sys)
    ensures Next(sys, SetStatus(slug, status)).0 == sys.(rows :=
      if slug in sys.rows && (status == Backlog || sys.rows[slug].sid.Some?)
      then sys.rows[slug := Row(status, sys.rows[slug].provider, sys.rows[slug].sid, sys.rows[slug].started)] else sys.rows)
  {
    if slug in sys.rows && sys.rows[slug].sid.Some? { assert !HeldElsewhere(sys.rows, slug, sys.rows[slug].sid.value); }
  }

  /** The agent changes exactly on a backlog task that never started a session. */
  lemma AgentLeaves(sys: Sys, slug: Slug, provider: Provider)
    ensures Next(sys, SetAgent(slug, provider)).0 == sys.(rows :=
      if slug in sys.rows && sys.rows[slug].status == Backlog && sys.rows[slug].sid == None && !sys.rows[slug].started
      then sys.rows[slug := Row(Backlog, provider, None, false)] else sys.rows)
  {
  }

  /** A review sends a done task to the backlog, session and all, and leaves any other alone. */
  lemma ReviewLeaves(sys: Sys, slug: Slug)
    requires Inv(sys)
    ensures Next(sys, ReviewReopens(slug)).0 == sys.(rows :=
      if slug in sys.rows && sys.rows[slug].status == Done
      then sys.rows[slug := Row(Backlog, sys.rows[slug].provider, sys.rows[slug].sid, sys.rows[slug].started)] else sys.rows)
  {
    if slug in sys.rows && sys.rows[slug].sid.Some? { assert !HeldElsewhere(sys.rows, slug, sys.rows[slug].sid.value); }
  }

  lemma AddLeaves(sys: Sys, slug: Slug, provider: Provider)
    ensures Next(sys, AddTask(slug, provider)).0 == sys.(rows :=
      if slug in sys.rows then sys.rows else sys.rows[slug := Row(Backlog, provider, None, false)])
  {
  }

  // ----- the server -----

  /** A terminal that the server may open takes the task up, done or not: with its session if it
      has one, the overview always without, and otherwise bootstrapping its own agent. */
  lemma PrepareLeaves(sys: Sys, pid: nat, slug: Slug, allowed: bool, uuid: SessionId)
    requires Inv(sys) && Enabled(sys, BridgePrepare(pid, slug, allowed, uuid))
    ensures var after := Next(sys, BridgePrepare(pid, slug, allowed, uuid)).0;
      if slug !in sys.rows || !allowed then after == sys.(procs := sys.procs[pid := Failed(slug)])
      else
        var r := sys.rows[slug];
        if r.sid.Some? && slug != "flow-overview" then
          && after.rows == sys.rows[slug := Row(InProgress, r.provider, r.sid, r.started)]
          && after.procs == sys.procs[pid := Pending(slug, Claim(false, r.provider, r.sid))] && after.minted == sys.minted
        else if r.provider == Claude then
          && after.rows == sys.rows[slug := Row(InProgress, Claude, Some(uuid), true)]
          && after.procs == sys.procs[pid := Pending(slug, Claim(true, Claude, Some(uuid)))] && after.minted == sys.minted[uuid := pid]
        else
          && after.rows == sys.rows[slug := Row(InProgress, Codex, None, true)]
          && after.procs == sys.procs[pid := Pending(slug, Claim(true, Codex, None))] && after.minted == sys.minted
  {
    UnseenHeldNowhere(sys, slug, uuid);
    if slug in sys.rows && sys.rows[slug].sid.Some? { assert !HeldElsewhere(sys.rows, slug, sys.rows[slug].sid.value); }
  }

  /** A fresh restart drops the session of a task that is not done. */
  lemma FreshLeaves(sys: Sys, slug: Slug, allowed: bool)
    ensures Next(sys, BridgeFresh(slug, allowed)).0 == sys.(rows :=
      if slug in sys.rows && sys.rows[slug].status != Done && allowed
      then sys.rows[slug := Row(Backlog, sys.rows[slug].provider, None, false)] else sys.rows)
  {
  }

  /** A restart puts a task that is not done and has a session in progress. */
  lemma ResumeLeaves(sys: Sys, slug: Slug, allowed: bool)
    requires Inv(sys)
    ensures Next(sys, BridgeResume(slug, allowed)).0 == sys.(rows :=
      if slug in sys.rows && sys.rows[slug].status != Done && allowed && sys.rows[slug].sid.Some?
      then sys.rows[slug := Row(InProgress, sys.rows[slug].provider, sys.rows[slug].sid, sys.rows[slug].started)] else sys.rows)
  {
    if slug in sys.rows && sys.rows[slug].sid.Some? { assert !HeldElsewhere(sys.rows, slug, sys.rows[slug].sid.value); }
  }

  /** A done, archived or deleted task starts anew. */
  lemma ReactivationLeaves(sys: Sys, slug: Slug, provider: Provider, shelved: bool)
    ensures Next(sys, Reactivation(slug, provider, shelved)).0 == sys.(rows :=
      if slug in sys.rows && (shelved || sys.rows[slug].status == Done)
      then sys.rows[slug := Row(Backlog, provider, None, false)] else sys.rows)
  {
  }

  // ----- over whole runs -----

  /** In every interleaving, however long: a task that is neither in the backlog nor done has a
      session id or is a Codex task in progress, and no two tasks have the same id. */
  lemma RunsAreLawful(steps: seq<Step>, s: Slug, t: Slug)
    requires EnabledRun(EMPTY, steps) && s in Run(EMPTY, steps).rows && t in Run(EMPTY, steps).rows
    ensures var rows := Run(EMPTY, steps).rows;
      && (rows[s].status == InProgress && rows[s].sid == None ==> rows[s].provider == Codex)
      && (rows[s].sid.Some? && rows[s].sid == rows[t].sid ==> s == t)
  {
    RunsKeepInv(EMPTY, steps);
    assert Check(Run(EMPTY, steps).rows[s]);
  }
}
