/** The runtime-state register: one row per session, conditionally overwritten by hook events
    that may arrive late, twice or out of order. */
module RuntimeRegister {
  import opened Text

  datatype Input = Input(
    provider: string, sessionId: string, taskSlug: string, status: string,
    eventKind: string, message: string, sequence: int, raw: string)

  datatype Payload = Payload(
    taskSlug: Option<string>, status: string, eventKind: string, message: Option<string>, raw: Option<string>)

  datatype Key = Key(provider: string, sessionId: string)

  datatype Event = Event(key: Key, payload: Payload, sequence: int)

  datatype Row = Row(payload: Payload, lastSeq: int, updatedAt: string)

  function NullIfBlank(s: string): Option<string> {
    if Trim(s) == "" then None else Some(Trim(s))
  }

  function DashesToUnderscores(s: string): string {
    seq(|s|, i requires 0 <= i < |s| => if s[i] == '-' then '_' else s[i])
  }

  /** The validation and normalisation before the statement; `lower` is the case folding. */
  function Normalize(input: Input, lower: string -> string): Option<Event> {
    var provider := lower(Trim(input.provider));
    var session := Trim(input.sessionId);
    var status := lower(Trim(input.status));
    if provider !in ["claude", "codex"] || session == ""
       || status !in ["running", "waiting", "idle", "dead", "released"] then None
    else
      var kind := DashesToUnderscores(lower(Trim(input.eventKind)));
      Some(Event(Key(provider, session),
                 Payload(NullIfBlank(input.taskSlug), status, if kind == "" then status else kind,
                         NullIfBlank(input.message), NullIfBlank(input.raw)),
                 input.sequence))
  }

  /** What an event is made of: provider, session and status must be given, after trimming and
      lower-casing, the first and the last among the known ones; the kind is the status when it is
      not given, with underscores for dashes; blank optional columns become NULL. */
  lemma NormalizeMeaning(input: Input, lower: string -> string)
    ensures var provider, session, status := lower(Trim(input.provider)), Trim(input.sessionId), lower(Trim(input.status));
      var kind := lower(Trim(input.eventKind));
      && (Normalize(input, lower).Some? <==>
            && (provider == "claude" || provider == "codex") && session != ""
            && (status == "running" || status == "waiting" || status == "idle" || status == "dead" || status == "released"))
      && (Normalize(input, lower).Some? ==>
            var e := Normalize(input, lower).value;
            && e.key == Key(provider, session) && e.sequence == input.sequence && e.payload.status == status
            && |e.payload.eventKind| == |if kind == "" then status else kind|
            && (kind == "" ==> e.payload.eventKind == status)
            && (kind != "" ==> forall i :: 0 <= i < |kind| ==> e.payload.eventKind[i] == if kind[i] == '-' then '_' else kind[i])
            && e.payload.taskSlug == (if Trim(input.taskSlug) == "" then None else Some(Trim(input.taskSlug)))
            && e.payload.message == (if Trim(input.message) == "" then None else Some(Trim(input.message)))
            && e.payload.raw == (if Trim(input.raw) == "" then None else Some(Trim(input.raw))))
  {
  }

  function Max(a: int, b: int): int {
    if a > b then a else b
  }

  predicate Accepts(row: Option<Row>, e: Event) {
    row.None? || e.sequence == 0 || e.sequence >= row.value.lastSeq
  }

  /** INSERT ... ON CONFLICT DO UPDATE ... WHERE, for one key. */
  function Deliver(row: Option<Row>, e: Event, now: string): Row {
    if row.None? then Row(e.payload, e.sequence, now)
    else if Accepts(row, e) then Row(e.payload, Max(e.sequence, row.value.lastSeq), now)
    else row.value
  }

  /** Events of one session in arrival order, each with its arrival time. */
  type Stream = seq<(Event, string)>

  function Fold(stream: Stream): Option<Row>
    decreases |stream|
  {
    if stream == [] then None
    else
      var n := |stream| - 1;
      Some(Deliver(Fold(stream[..n]), stream[n].0, stream[n].1))
  }

  ghost predicate Bounds(stream: Stream, m: int) {
    && (forall i :: 0 <= i < |stream| ==> stream[i].0.sequence <= m)
    && exists i :: 0 <= i < |stream| && stream[i].0.sequence == m
  }

  /** For every stream, with sequence numbers of any sign: last_seq is the maximum seen. */
  lemma {:induction false} LastSeqIsMaximum(stream: Stream)
    requires stream != []
    ensures Bounds(stream, Fold(stream).value.lastSeq)
    decreases |stream|
  {
    var n := |stream| - 1;
    var before := stream[..n];
    if n == 0 {
      assert Fold(before) == None;
      assert stream[0].0.sequence == Fold(stream).value.lastSeq;
    } else {
      LastSeqIsMaximum(before);
      var k :| 0 <= k < n && before[k].0.sequence == Fold(before).value.lastSeq;
      assert stream[k] == before[k];
      forall i | 0 <= i < n ensures stream[i].0.sequence <= Fold(before).value.lastSeq { assert before[i] == stream[i]; }
      if stream[n].0.sequence >= Fold(before).value.lastSeq {
        assert stream[n].0.sequence == Fold(stream).value.lastSeq;
      } else {
        assert stream[k].0.sequence == Fold(stream).value.lastSeq;
      }
    }
  }

  /** last_seq never decreases. */
  lemma LastSeqMonotone(row: Option<Row>, e: Event, now: string)
    ensures row.Some? ==> Deliver(row, e, now).lastSeq >= row.value.lastSeq
    ensures Deliver(row, e, now).lastSeq >= e.sequence
  {
  }

  /** The event at i was unsequenced, or no earlier one was newer. */
  ghost predicate Counts(stream: Stream, i: nat)
    requires i < |stream|
  {
    stream[i].0.sequence == 0 || forall j :: 0 <= j < i ==> stream[j].0.sequence <= stream[i].0.sequence
  }

  /** For every stream: the row holds the payload and time of the last event that counted. */
  lemma {:induction false} PayloadIsLastCounting(stream: Stream) returns (i: nat)
    requires stream != []
    ensures i < |stream| && Counts(stream, i)
    ensures forall j :: i < j < |stream| ==> !Counts(stream, j)
    ensures Fold(stream).value.payload == stream[i].0.payload && Fold(stream).value.updatedAt == stream[i].1
    decreases |stream|
  {
    var n := |stream| - 1;
    var before := stream[..n];
    if n == 0 {
      assert Fold(before) == None;
      i := 0;
    } else {
      LastSeqIsMaximum(before);
      AcceptsWhenCounts(stream);
      if Counts(stream, n) {
        i := n;
      } else {
        i := PayloadIsLastCounting(before);
        assert Counts(stream, i) by {
          forall j | 0 <= j < i && stream[i].0.sequence != 0 ensures stream[j].0.sequence <= stream[i].0.sequence {
            assert before[j] == stream[j] && before[i] == stream[i];
          }
        }
        forall j | i < j < n ensures !Counts(stream, j) {
          assert !Counts(before, j);
          var k :| 0 <= k < j && before[k].0.sequence > before[j].0.sequence;
          assert stream[k] == before[k] && stream[j] == before[j];
        }
      }
    }
  }

  lemma AcceptsWhenCounts(stream: Stream)
    requires |stream| > 1
    ensures Accepts(Fold(stream[..|stream| - 1]), stream[|stream| - 1].0) <==> Counts(stream, |stream| - 1)
  {
    var n := |stream| - 1;
    var before := stream[..n];
    LastSeqIsMaximum(before);
    var k :| 0 <= k < n && before[k].0.sequence == Fold(before).value.lastSeq;
    assert stream[k] == before[k];
    forall i | 0 <= i < n ensures stream[i].0.sequence <= Fold(before).value.lastSeq { assert before[i] == stream[i]; }
  }

  // ----- delivery order -----

  ghost function EventsOf(stream: Stream): set<Event> {
    set i | 0 <= i < |stream| :: stream[i].0
  }

  /** Properly sequenced: numbers are positive, and a number names one event. */
  ghost predicate Sequenced(events: set<Event>) {
    && (forall e :: e in events ==> e.sequence > 0)
    && (forall e, f :: e in events && f in events && e.sequence == f.sequence ==> e == f)
  }

  lemma NewestWins(stream: Stream) returns (newest: Event)
    requires stream != [] && Sequenced(EventsOf(stream))
    ensures newest in EventsOf(stream)
    ensures forall e :: e in EventsOf(stream) ==> e.sequence <= newest.sequence
    ensures Fold(stream).value.payload == newest.payload && Fold(stream).value.lastSeq == newest.sequence
  {
    LastSeqIsMaximum(stream);
    var m := Fold(stream).value.lastSeq;
    var k :| 0 <= k < |stream| && stream[k].0.sequence == m;
    newest := stream[k].0;
    assert newest in EventsOf(stream);
    var i := PayloadIsLastCounting(stream);
    assert stream[i].0 in EventsOf(stream);
    if i < k {
      assert Counts(stream, k);
      assert false;
    } else if i > k {
      assert stream[k].0.sequence <= stream[i].0.sequence;
    }
  }

  /** Delivery-order independence: two streams of the same properly sequenced events, in any
      order and with any repetitions, leave the same payload and the same last_seq. */
  lemma OrderDoesNotMatter(a: Stream, b: Stream)
    requires EventsOf(a) == EventsOf(b) && Sequenced(EventsOf(a))
    ensures Fold(a).Some? <==> Fold(b).Some?
    ensures Fold(a).Some? ==>
      Fold(a).value.payload == Fold(b).value.payload && Fold(a).value.lastSeq == Fold(b).value.lastSeq
  {
    if a != [] { assert a[0].0 in EventsOf(a); }
    if b != [] { assert b[0].0 in EventsOf(b); }
    if a != [] && b != [] {
      var x := NewestWins(a);
      var y := NewestWins(b);
      assert x == y;
    }
  }

  function DeliverTwo(row: Option<Row>, x: (Event, string), y: (Event, string)): Row {
    Deliver(Some(Deliver(row, x.0, x.1)), y.0, y.1)
  }

  /** Whichever of the two comes second would be accepted after the other. */
  predicate EachOverrides(a: Event, b: Event) {
    (b.sequence == 0 || b.sequence >= a.sequence) && (a.sequence == 0 || a.sequence >= b.sequence)
  }

  /** When two events may be swapped, exactly, whatever row they meet: their payloads agree, the
      row refuses one of them, or one of them is refused after the other. */
  lemma SwapExact(row: Option<Row>, a: Event, b: Event, t: string, u: string)
    ensures var ab, ba := DeliverTwo(row, (a, t), (b, u)), DeliverTwo(row, (b, u), (a, t));
      && ab.lastSeq == ba.lastSeq
      && (ab.payload == ba.payload <==>
            a.payload == b.payload || !Accepts(row, a) || !Accepts(row, b) || !EachOverrides(a, b))
  {
  }

  /** The same at any place of a stream, with the row it has left so far. */
  lemma SwapInStream(before: Stream, a: Event, b: Event, t: string, u: string)
    ensures var ab, ba := Fold(before + [(a, t), (b, u)]), Fold(before + [(b, u), (a, t)]);
      && ab.Some? && ba.Some?
      && ((ab.value.payload == ba.value.payload && ab.value.lastSeq == ba.value.lastSeq) <==>
            a.payload == b.payload || !Accepts(Fold(before), a) || !Accepts(Fold(before), b) || !EachOverrides(a, b))
  {
    FoldTwoMore(before, (a, t), (b, u));
    FoldTwoMore(before, (b, u), (a, t));
    SwapExact(Fold(before), a, b, t, u);
  }

  lemma FoldTwoMore(before: Stream, x: (Event, string), y: (Event, string))
    ensures Fold(before + [x, y]) == Some(DeliverTwo(Fold(before), x, y))
  {
    var one, two := before + [x], before + [x, y];
    assert one[..|one| - 1] == before;
    assert two[..|two| - 1] == one;
  }

  /** On a session's first two events: their payloads agree, or their numbers differ and an
      unsequenced one meets only a negative one. */
  lemma SwapFirstTwo(a: Event, b: Event, t: string, u: string)
    ensures var ab, ba := Fold([(a, t), (b, u)]), Fold([(b, u), (a, t)]);
      (ab.value.payload == ba.value.payload && ab.value.lastSeq == ba.value.lastSeq) <==>
        a.payload == b.payload
        || (a.sequence != b.sequence && (a.sequence == 0 ==> b.sequence < 0) && (b.sequence == 0 ==> a.sequence < 0))
  {
    FoldTwo((a, t), (b, u));
    FoldTwo((b, u), (a, t));
  }

  lemma FoldTwo(x: (Event, string), y: (Event, string))
    ensures Fold([x, y]) == Some(Deliver(Some(Deliver(None, x.0, x.1)), y.0, y.1))
  {
    var one, two: Stream := [x], [x, y];
    assert one[..0] == [];
    assert Fold(one) == Some(Deliver(None, x.0, x.1));
    assert two[..1] == one;
  }

  // ----- many sessions -----

  type Rows = map<Key, Row>

  function Get(rows: Rows, key: Key): Option<Row> {
    if key in rows then Some(rows[key]) else None
  }

  function DeliverAll(stream: Stream): Rows
    decreases |stream|
  {
    if stream == [] then map[]
    else
      var n := |stream| - 1;
      var rows, e := DeliverAll(stream[..n]), stream[n].0;
      rows[e.key := Deliver(Get(rows, e.key), e, stream[n].1)]
  }

  lemma DeliverOneMore(stream: Stream, e: Event, now: string)
    ensures DeliverAll(stream + [(e, now)]) == DeliverAll(stream)[e.key := Deliver(Get(DeliverAll(stream), e.key), e, now)]
  {
    var more := stream + [(e, now)];
    assert more[..|more| - 1] == stream;
  }

  /** One session's events, in order. */
  function Only(stream: Stream, key: Key): Stream
    decreases |stream|
  {
    if stream == [] then []
    else
      var n := |stream| - 1;
      if stream[n].0.key == key then Only(stream[..n], key) + [stream[n]] else Only(stream[..n], key)
  }

  /** Sessions do not disturb each other. */
  lemma {:induction false} SessionsIndependent(stream: Stream, key: Key)
    ensures Get(DeliverAll(stream), key) == Fold(Only(stream, key))
    decreases |stream|
  {
    if stream != [] {
      var n := |stream| - 1;
      SessionsIndependent(stream[..n], key);
      if stream[n].0.key == key {
        var only := Only(stream, key);
        assert only[..|only| - 1] == Only(stream[..n], key) && only[|only| - 1] == stream[n];
      }
    }
  }

  lemma {:induction false} OnlyEvents(stream: Stream, key: Key)
    ensures EventsOf(Only(stream, key)) == set e | e in EventsOf(stream) && e.key == key
    decreases |stream|
  {
    if stream != [] {
      var n := |stream| - 1;
      OnlyEvents(stream[..n], key);
      AddedEvent(stream);
      if stream[n].0.key == key {
        var only := Only(stream, key);
        AddedEvent(only);
        assert only[..|only| - 1] == Only(stream[..n], key);
      }
    }
  }

  lemma AddedEvent(stream: Stream)
    requires stream != []
    ensures EventsOf(stream) == EventsOf(stream[..|stream| - 1]) + {stream[|stream| - 1].0}
  {
    var n := |stream| - 1;
    forall i | 0 <= i < n ensures stream[i].0 in EventsOf(stream[..n]) { assert stream[..n][i] == stream[i]; }
    forall e | e in EventsOf(stream[..n]) ensures e in EventsOf(stream) {
      var i :| 0 <= i < n && stream[..n][i].0 == e;
      assert stream[i].0 == e;
    }
  }

  /** The whole register is delivery-order independent, session by session. */
  lemma RegisterOrderDoesNotMatter(a: Stream, b: Stream, key: Key)
    requires EventsOf(a) == EventsOf(b) && Sequenced(set e | e in EventsOf(a) && e.key == key)
    ensures key in DeliverAll(a) <==> key in DeliverAll(b)
    ensures key in DeliverAll(a) ==>
      && DeliverAll(a)[key].payload == DeliverAll(b)[key].payload
      && DeliverAll(a)[key].lastSeq == DeliverAll(b)[key].lastSeq
  {
    SessionsIndependent(a, key);
    SessionsIndependent(b, key);
    OnlyEvents(a, key);
    OnlyEvents(b, key);
    OrderDoesNotMatter(Only(a, key), Only(b, key));
  }

  class Register {
    var rows: Rows
    ghost var delivered: Stream

    ghost predicate Valid()
      reads this
    {
      rows == DeliverAll(delivered)
    }

    constructor ()
      ensures Valid() && delivered == []
    {
      rows, delivered := map[], [];
    }

    /** UpsertAgentRuntimeState. */
    method Upsert(input: Input, lower: string -> string, now: string) returns (ok: bool)
      requires Valid()
      modifies this
      ensures Valid()
      ensures ok <==> Normalize(input, lower).Some?
      ensures delivered == old(delivered) + (if ok then [(Normalize(input, lower).value, now)] else [])
    {
      var event := Normalize(input, lower);
      if event.None? { return false; }
      Store(event.value, now);
      return true;
    }

    /** The statement itself. */
    method Store(e: Event, now: string)
      requires Valid()
      modifies this
      ensures Valid() && delivered == old(delivered) + [(e, now)]
    {
      DeliverOneMore(delivered, e, now);
      if e.key !in rows {
        rows := rows[e.key := Row(e.payload, e.sequence, now)];
      } else {
        var stored := rows[e.key];
        if e.sequence == 0 || e.sequence >= stored.lastSeq {
          rows := rows[e.key := Row(e.payload, if e.sequence > stored.lastSeq then e.sequence else stored.lastSeq, now)];
        }
      }
      delivered := delivered + [(e, now)];
    }
  }
}
