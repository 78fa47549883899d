/** The migration that makes session ids unique before their index is created. */
module SessionDedupe {
  import opened Text
  import opened Graphs
  import opened TaskTables
  import opened Sessions

  datatype Entry = Entry(row: Row, updatedAt: string)

  type Entries = map<Slug, Entry>

  /** ORDER BY updated_at DESC, slug ASC. */
  predicate Precedes(es: Entries, a: Slug, b: Slug)
    requires a in es && b in es
  {
    Less(es[b].updatedAt, es[a].updatedAt) || (es[a].updatedAt == es[b].updatedAt && Less(a, b))
  }

  lemma PrecedesTotal(es: Entries, a: Slug, b: Slug)
    requires a in es && b in es
    ensures a != b ==> (Precedes(es, a, b) <==> !Precedes(es, b, a))
    ensures !Precedes(es, a, a)
  {
    LessTotal(a, b);
    LessTotal(es[a].updatedAt, es[b].updatedAt);
    LessIrreflexive(a);
    LessIrreflexive(es[a].updatedAt);
  }

  lemma PrecedesTransitive(es: Entries, a: Slug, b: Slug, c: Slug)
    requires a in es && b in es && c in es && Precedes(es, a, b) && Precedes(es, b, c)
    ensures Precedes(es, a, c)
  {
    var ta, tb, tc := es[a].updatedAt, es[b].updatedAt, es[c].updatedAt;
    LessIrreflexive(ta);
    if Less(tb, ta) && Less(tc, tb) { LessTransitive(tc, tb, ta); }
    if ta == tb && tb == tc { LessTransitive(a, b, c); }
  }

  predicate Carries(es: Entries, s: Slug, sid: SessionId) {
    s in es && es[s].row.sid == Some(sid)
  }

  function Carriers(es: Entries, sid: SessionId): set<Slug> {
    set s | s in es && Carries(es, s, sid)
  }

  /** Another carrier of the same id comes first. */
  predicate Loser(es: Entries, s: Slug) {
    s in es && es[s].row.sid.Some? &&
      exists t :: t in es && t != s && Carries(es, t, es[s].row.sid.value) && Precedes(es, t, s)
  }

  lemma {:induction false} FirstOf(es: Entries, some: set<Slug>) returns (w: Slug)
    requires some != {} && some <= es.Keys
    ensures w in some && forall c :: c in some && c != w ==> Precedes(es, w, c)
    decreases some
  {
    var x :| x in some;
    var rest := some - {x};
    if rest == {} {
      w := x;
      assert some == {x};
    } else {
      var v := FirstOf(es, rest);
      PrecedesTotal(es, x, v);
      w := if Precedes(es, v, x) then v else x;
      forall c | c in some && c != w ensures Precedes(es, w, c) {
        if w == x && c != v { PrecedesTransitive(es, x, v, c); }
      }
    }
  }

  function Demote(e: Entry, now: string): Entry {
    Entry(e.row.(sid := None, started := false, status := Backlog), now)
  }

  /** The finished migration: every loser demoted, every other row as it was. */
  ghost predicate Deduped(before: Entries, after: Entries, now: string) {
    && after.Keys == before.Keys
    && forall s :: s in before ==> after[s] == if Loser(before, s) then Demote(before[s], now) else before[s]
  }

  /** A migration stopped anywhere: only losers have been touched. */
  ghost predicate PartlyDeduped(before: Entries, mid: Entries, now: string) {
    && mid.Keys == before.Keys
    && forall s :: s in before ==> mid[s] == before[s] || (Loser(before, s) && mid[s] == Demote(before[s], now))
  }

  ghost predicate Unique(es: Entries) {
    forall s, t :: s in es && t in es && s != t && es[s].row.sid.Some? ==> es[s].row.sid != es[t].row.sid
  }

  /** After the migration the id is on one task only, the carrier that came first. */
  ghost predicate KeptOnce(before: Entries, after: Entries, sid: SessionId) {
    exists w :: Carriers(after, sid) == {w} && Carries(before, w, sid)
      && forall c :: Carries(before, c, sid) && c != w ==> Precedes(before, w, c)
  }

  /** No two tasks share an id afterwards; every id used before is on exactly one task, its
      latest-updated carrier with the smallest slug; and every demoted row satisfies the
      tasks CHECK whatever it was before. */
  lemma DedupeMeaning(before: Entries, after: Entries, now: string)
    requires Deduped(before, after, now)
    ensures Unique(after)
    ensures forall s :: s in before && before[s].row.sid.Some? ==> KeptOnce(before, after, before[s].row.sid.value)
    ensures forall s :: s in before && (Loser(before, s) || Check(before[s].row)) ==> Check(after[s].row)
  {
    forall s, t | s in after && t in after && s != t && after[s].row.sid.Some? ensures after[s].row.sid != after[t].row.sid {
      PrecedesTotal(before, s, t);
    }
    forall s | s in before && before[s].row.sid.Some?
      ensures KeptOnce(before, after, before[s].row.sid.value)
    {
      var sid := before[s].row.sid.value;
      assert s in Carriers(before, sid);
      var w := FirstOf(before, Carriers(before, sid));
      WinnerKeeps(before, w, sid);
      assert w in Carriers(after, sid);
      forall c | Carries(before, c, sid) && c != w ensures Loser(before, c) { assert Precedes(before, w, c); }
      assert Carriers(after, sid) == {w};
    }
  }

  /** What the migration leaves of each row: a task whose id is also on a task updated later, or at
      the same time and with a smaller slug, goes to the backlog without it, stamped with the time;
      every other row stays. */
  lemma DedupeLeaves(before: Entries, after: Entries, now: string, s: Slug)
    requires Deduped(before, after, now) && s in before
    ensures after.Keys == before.Keys
    ensures var e := before[s];
      after[s] ==
        if e.row.sid.Some? && exists t :: t in before && t != s && before[t].row.sid == e.row.sid && (Less(e.updatedAt, before[t].updatedAt) || (before[t].updatedAt == e.updatedAt && Less(t, s)))
        then Entry(Row(Backlog, e.row.provider, None, false), now) else e
  {
  }

  lemma WinnerKeeps(es: Entries, w: Slug, sid: SessionId)
    requires Carries(es, w, sid) && forall c :: Carries(es, c, sid) && c != w ==> Precedes(es, w, c)
    ensures !Loser(es, w)
  {
    if Loser(es, w) {
      var t :| t in es && t != w && Carries(es, t, sid) && Precedes(es, t, w);
      PrecedesTotal(es, t, w);
    }
  }

  /** Rerunning changes nothing. */
  lemma DedupeTwice(before: Entries, once: Entries, twice: Entries, now: string, later: string)
    requires Deduped(before, once, now) && Deduped(once, twice, later)
    ensures twice == once
  {
    DedupeMeaning(before, once, now);
    forall s | s in once ensures !Loser(once, s) {}
  }

  /** A run cut short and started again ends like an uninterrupted one, but for the
      timestamps of the demoted rows. */
  lemma DedupeResumes(before: Entries, mid: Entries, resumed: Entries, direct: Entries, now: string, later: string)
    requires PartlyDeduped(before, mid, now) && Deduped(mid, resumed, later) && Deduped(before, direct, now)
    ensures resumed.Keys == direct.Keys
    ensures forall s :: s in direct ==> resumed[s].row == direct[s].row
    ensures forall s :: s in direct && !Loser(before, s) ==> resumed[s] == direct[s] == before[s]
  {
    forall s | s in before
      ensures Loser(mid, s) <==> Loser(before, s) && mid[s] == before[s] && before[s].row.sid.Some?
    {
      LosersAgree(before, mid, now, s);
    }
  }

  lemma LosersAgree(before: Entries, mid: Entries, now: string, s: Slug)
    requires PartlyDeduped(before, mid, now) && s in before
    ensures Loser(mid, s) <==> Loser(before, s) && mid[s] == before[s] && before[s].row.sid.Some?
  {
    if Loser(mid, s) {
      assert mid[s] == before[s];
      var t :| t in mid && t != s && Carries(mid, t, mid[s].row.sid.value) && Precedes(mid, t, s);
      assert mid[t] == before[t];
      assert Carries(before, t, before[s].row.sid.value) && Precedes(before, t, s);
    }
    if Loser(before, s) && mid[s] == before[s] {
      var sid := before[s].row.sid.value;
      assert s in Carriers(before, sid);
      var w := FirstOf(before, Carriers(before, sid));
      WinnerKeeps(before, w, sid);
      assert w != s && mid[w] == before[w];
      assert Carries(mid, w, sid) && Precedes(mid, w, s);
    }
  }

  class Migration {
    var entries: Entries
    var indexed: bool

    constructor (initial: Entries)
      ensures entries == initial && !indexed
    {
      entries, indexed := initial, false;
    }

    /** migrateTasksSessionIDUnique. */
    method MigrateSessionIdUnique(now: string)
      modifies this
      ensures indexed
      ensures if old(indexed) then entries == old(entries) else Deduped(old(entries), entries, now)
    {
      if indexed { return; }
      ghost var before := entries;
      var duped := set s | s in entries && entries[s].row.sid.Some? && |Carriers(entries, entries[s].row.sid.value)| > 1
        :: entries[s].row.sid.value;
      OnlyDupedLose(before, duped);
      while duped != {}
        invariant forall s :: Loser(before, s) && before[s].row.sid.value !in duped ==> s in entries && entries[s] == Demote(before[s], now)
        invariant entries.Keys == before.Keys
        invariant forall s :: s in before && !(Loser(before, s) && before[s].row.sid.value !in duped) ==> entries[s] == before[s]
        decreases duped
      {
        var sid :| sid in duped;
        duped := duped - {sid};
        DemoteLosers(sid, now, before);
      }
      indexed := true;
    }

    /** One shared id: the first carrier keeps it, the others are demoted one by one. */
    method DemoteLosers(sid: SessionId, now: string, ghost before: Entries)
      requires entries.Keys == before.Keys
      requires forall s :: s in before && (before[s].row.sid == Some(sid) || Carries(entries, s, sid)) ==> entries[s] == before[s]
      modifies this`entries
      ensures entries.Keys == before.Keys
      ensures forall s :: s in before ==>
        entries[s] == if Loser(before, s) && before[s].row.sid == Some(sid) then Demote(before[s], now) else old(entries)[s]
    {
      var carriers := Carriers(entries, sid);
      assert carriers == Carriers(before, sid);
      if |carriers| < 2 {
        FewNeverLose(before, sid);
        return;
      }
      ghost var w := FirstOf(entries, carriers);
      var winner :| winner in carriers && forall c :: c in carriers && c != winner ==> Precedes(entries, winner, c);
      OneWinner(before, entries, sid, winner);
      DemoteAll(carriers - {winner}, now);
    }

    /** UPDATE, one row at a time. */
    method DemoteAll(slugs: set<Slug>, now: string)
      requires slugs <= entries.Keys
      modifies this`entries
      ensures entries.Keys == old(entries).Keys
      ensures forall s :: s in old(entries) ==> entries[s] == if s in slugs then Demote(old(entries)[s], now) else old(entries)[s]
    {
      var rest := slugs;
      while rest != {}
        invariant rest <= slugs
        invariant entries.Keys == old(entries).Keys
        invariant forall s :: s in entries ==>
          entries[s] == if s in slugs && s !in rest then Demote(old(entries)[s], now) else old(entries)[s]
        decreases rest
      {
        var l :| l in rest;
        rest := rest - {l};
        entries := entries[l := Demote(entries[l], now)];
      }
    }
  }

  /** The first carrier in the current table is the only one that does not lose. */
  lemma OneWinner(before: Entries, entries: Entries, sid: SessionId, winner: Slug)
    requires entries.Keys == before.Keys
    requires forall s :: s in before && (before[s].row.sid == Some(sid) || Carries(entries, s, sid)) ==> entries[s] == before[s]
    requires Carries(entries, winner, sid)
    requires forall c :: Carries(entries, c, sid) && c != winner ==> Precedes(entries, winner, c)
    ensures forall c :: Carries(before, c, sid) ==> (Loser(before, c) <==> c != winner)
  {
    forall d | Carries(before, d, sid) && d != winner ensures Precedes(before, winner, d) {
      assert Carries(entries, d, sid);
      assert Precedes(entries, winner, d);
    }
    forall c | Carries(before, c, sid) ensures Loser(before, c) <==> c != winner {
      LosesToWinner(before, winner, sid, c);
    }
  }

  lemma LosesToWinner(es: Entries, winner: Slug, sid: SessionId, c: Slug)
    requires Carries(es, winner, sid) && Carries(es, c, sid)
    requires forall d :: Carries(es, d, sid) && d != winner ==> Precedes(es, winner, d)
    ensures Loser(es, c) <==> c != winner
  {
    WinnerKeeps(es, winner, sid);
  }

  lemma FewNeverLose(es: Entries, sid: SessionId)
    requires |Carriers(es, sid)| < 2
    ensures forall s :: Carries(es, s, sid) ==> !Loser(es, s)
  {
    forall s | Carries(es, s, sid) ensures !Loser(es, s) {
      if Loser(es, s) {
        var t :| t in es && t != s && Carries(es, t, sid);
        TwoCarriers(es, s, t, sid);
      }
    }
  }

  lemma TwoCarriers(es: Entries, s: Slug, t: Slug, sid: SessionId)
    requires Carries(es, s, sid) && Carries(es, t, sid) && s != t
    ensures |Carriers(es, sid)| >= 2
  {
    assert Carriers(es, sid) == {s, t} + (Carriers(es, sid) - {s, t});
  }

  lemma OnlyDupedLose(es: Entries, duped: set<SessionId>)
    requires forall s :: s in es && es[s].row.sid.Some? && |Carriers(es, es[s].row.sid.value)| > 1 ==> es[s].row.sid.value in duped
    ensures forall s :: Loser(es, s) ==> es[s].row.sid.value in duped
  {
    forall s | Loser(es, s) ensures es[s].row.sid.value in duped {
      if |Carriers(es, es[s].row.sid.value)| < 2 { FewNeverLose(es, es[s].row.sid.value); }
    }
  }
}
