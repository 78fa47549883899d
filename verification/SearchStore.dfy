/** The search cache at work: single statements with their triggers, whole runs of them, the
    sync transaction, the index split migration, and the search itself. */
module SearchStore {
  import opened Text
  import opened SearchIndex

  datatype Cache = Cache(rows: Table, main: set<Posting>, tx: set<Posting>)

  ghost predicate InStep(tok: Tokenizer, c: Cache) {
    Indexed(tok, c.rows, c.main, c.tx)
  }

  function AfterInsert(tok: Tokenizer, c: Cache, row: Row): Cache {
    c.(main := if row.doc.scope != Transcript then FtsInsert(c.main, tok, row.id, row.doc) else c.main,
       tx := if row.doc.scope == Transcript then FtsInsert(c.tx, tok, row.id, row.doc) else c.tx)
  }

  function AfterDelete(tok: Tokenizer, c: Cache, row: Row): Cache {
    c.(main := if row.doc.scope != Transcript then FtsDelete(c.main, tok, row.id, row.doc) else c.main,
       tx := if row.doc.scope == Transcript then FtsDelete(c.tx, tok, row.id, row.doc) else c.tx)
  }

  function AfterUpdate(tok: Tokenizer, c: Cache, was: Row, now: Row): Cache {
    AfterInsert(tok, AfterDelete(tok, c, was), now)
  }

  /** INSERT ... ON CONFLICT(doc_key) DO UPDATE; `unused` is the id a new row would get. */
  function Upsert(tok: Tokenizer, c: Cache, doc: Doc, unused: nat, now: string): Cache {
    if doc.key in c.rows then
      var was := c.rows[doc.key];
      var row := Row(was.id, doc, now);
      AfterUpdate(tok, c.(rows := c.rows[doc.key := row]), was, row)
    else
      var row := Row(unused, doc, now);
      AfterInsert(tok, c.(rows := c.rows[doc.key := row]), row)
  }

  function Delete(tok: Tokenizer, c: Cache, key: string): Cache {
    if key in c.rows then AfterDelete(tok, c.(rows := c.rows - {key}), c.rows[key]) else c
  }

  /** The document is in its row, with the time and the id the row had, if it was there; every other
      row stays. */
  ghost predicate Placed(before: Table, after: Table, doc: Doc, now: string) {
    && doc.key in after && after[doc.key].doc == doc && after[doc.key].updatedAt == now
    && (doc.key in before ==> after[doc.key].id == before[doc.key].id)
    && (forall k :: k != doc.key ==> (k in after <==> k in before))
    && (forall k :: k in before && k != doc.key ==> after[k] == before[k])
  }

  predicate Unused(rows: Table, id: nat) {
    forall k :: k in rows ==> rows[k].id != id
  }

  lemma UpsertInStep(tok: Tokenizer, c: Cache, doc: Doc, unused: nat, now: string)
    requires InStep(tok, c) && Unused(c.rows, unused)
    ensures InStep(tok, Upsert(tok, c, doc, unused, now))
  {
    if doc.key in c.rows {
      var was := c.rows[doc.key];
      var row := Row(was.id, doc, now);
      var less := c.rows - {doc.key};
      RebuildWithout(tok, c.rows, doc.key, false);
      RebuildWithout(tok, c.rows, doc.key, true);
      RebuildWith(tok, less, row, false);
      RebuildWith(tok, less, row, true);
      assert less[doc.key := row] == c.rows[doc.key := row];
    } else {
      RebuildWith(tok, c.rows, Row(unused, doc, now), false);
      RebuildWith(tok, c.rows, Row(unused, doc, now), true);
    }
  }

  lemma DeleteInStep(tok: Tokenizer, c: Cache, key: string)
    requires InStep(tok, c)
    ensures InStep(tok, Delete(tok, c, key))
  {
    if key in c.rows {
      RebuildWithout(tok, c.rows, key, false);
      RebuildWithout(tok, c.rows, key, true);
    }
  }

  datatype Statement = Put(doc: Doc, unused: nat, now: string) | Drop(key: string)

  predicate Legal(c: Cache, s: Statement) {
    s.Put? ==> Unused(c.rows, s.unused)
  }

  function Apply(tok: Tokenizer, c: Cache, s: Statement): Cache {
    match s
    case Put(doc, unused, now) => Upsert(tok, c, doc, unused, now)
    case Drop(key) => Delete(tok, c, key)
  }

  predicate LegalRun(tok: Tokenizer, c: Cache, run: seq<Statement>)
    decreases |run|
  {
    run == [] || (Legal(c, run[0]) && LegalRun(tok, Apply(tok, c, run[0]), run[1..]))
  }

  function Run(tok: Tokenizer, c: Cache, run: seq<Statement>): Cache
    decreases |run|
  {
    if run == [] then c else Run(tok, Apply(tok, c, run[0]), run[1..])
  }

  /** Under any sequence of inserts, upserts and deletes, the triggers keep both indexes
      equal to a rebuild of the table split by scope, and each row in exactly one of them. */
  lemma {:induction false} RunsStayInStep(tok: Tokenizer, c: Cache, run: seq<Statement>)
    requires InStep(tok, c) && LegalRun(tok, c, run)
    ensures var after := Run(tok, c, run);
      && InStep(tok, after)
      && forall k, p :: k in after.rows && p in Postings(tok, after.rows[k].id, after.rows[k].doc) ==>
           (p in after.main <==> after.rows[k].doc.scope != Transcript)
           && (p in after.tx <==> after.rows[k].doc.scope == Transcript)
    decreases |run|
  {
    if run == [] {
      forall k, p | k in c.rows && p in Postings(tok, c.rows[k].id, c.rows[k].doc)
        ensures p in c.main <==> c.rows[k].doc.scope != Transcript
        ensures p in c.tx <==> c.rows[k].doc.scope == Transcript
      {
        OneIndexOnly(tok, c.rows, k, p);
      }
    } else {
      match run[0] {
        case Put(doc, unused, now) => UpsertInStep(tok, c, doc, unused, now);
        case Drop(key) => DeleteInStep(tok, c, key);
      }
      RunsStayInStep(tok, Apply(tok, c, run[0]), run[1..]);
    }
  }

  lemma OneIndexOnly(tok: Tokenizer, rows: Table, key: string, p: Posting)
    requires ValidTable(rows) && key in rows && p in Postings(tok, rows[key].id, rows[key].doc)
    ensures p in Rebuild(tok, rows, false) <==> rows[key].doc.scope != Transcript
    ensures p in Rebuild(tok, rows, true) <==> rows[key].doc.scope == Transcript
  {
    assert p.id == rows[key].id;
    forall transcripts: bool | p in Rebuild(tok, rows, transcripts)
      ensures (rows[key].doc.scope == Transcript) == transcripts
    {
      var k :| k in rows && (rows[k].doc.scope == Transcript) == transcripts && p in Postings(tok, rows[k].id, rows[k].doc);
      assert rows[k].id == p.id;
    }
  }

  // ----- search -----

  /** Which entities are neither archived nor deleted. */
  type Liveness = (EntityType, string) -> bool

  predicate Live(live: Liveness, doc: Doc) {
    doc.entityType == MemoryEntity || live(doc.entityType, doc.slug)
  }

  predicate Hit(tok: Tokenizer, row: Row, terms: seq<string>, scopes: seq<Scope>, live: Liveness) {
    row.doc.scope in scopes && Live(live, row.doc) && DocMatches(tok, row.doc, terms)
  }

  /** A scan of the whole table, without any index. */
  ghost function FullScan(tok: Tokenizer, rows: Table, terms: seq<string>, scopes: seq<Scope>, live: Liveness): set<string> {
    set k | k in rows && Hit(tok, rows[k], terms, scopes, live)
  }

  /** Which rows a search is about, on the columns: those of a requested scope, of a task, project or
      playbook that is neither archived nor deleted or of the memory, each term of the query being a
      phrase of the title or of the content. */
  lemma ScanColumns(tok: Tokenizer, rows: Table, terms: seq<string>, scopes: seq<Scope>, live: Liveness, k: string)
    ensures k in FullScan(tok, rows, terms, scopes, live) <==>
      && k in rows && rows[k].doc.scope in scopes
      && (match rows[k].doc.entityType
          case MemoryEntity => true
          case TaskEntity => live(TaskEntity, rows[k].doc.slug)
          case ProjectEntity => live(ProjectEntity, rows[k].doc.slug)
          case PlaybookEntity => live(PlaybookEntity, rows[k].doc.slug))
      && (forall t :: t in terms ==> PhraseIn(tok(rows[k].doc.title), tok(t)) || PhraseIn(tok(rows[k].doc.content), tok(t)))
  {
  }

  ghost predicate Distinct(s: seq<string>) {
    forall i, j :: 0 <= i < j < |s| ==> s[i] != s[j]
  }

  function Elements(s: seq<string>): set<string> {
    set i | 0 <= i < |s| :: s[i]
  }

  lemma {:induction false} DistinctCount(s: seq<string>)
    requires Distinct(s)
    ensures |Elements(s)| == |s|
  {
    if s != [] {
      var n := |s| - 1;
      DistinctCount(s[..n]);
      assert Elements(s) == Elements(s[..n]) + {s[n]};
    }
  }

  const DEFAULT_SCOPES: seq<Scope> := [Brief, Update, Memory]

  // ----- migration -----

  datatype Layout = NoTriggers | OneIndex | TwoIndexes

  /** The phrase is posted so that p is where it ends. */
  predicate EndsHere(index: set<Posting>, id: nat, phrase: seq<string>, p: Posting) {
    p.id == id && 0 < |phrase| <= p.position + 1 && PhrasePosted(index, id, p.column, phrase, p.position + 1 - |phrase|)
  }

  lemma EndsSomewhere(index: set<Posting>, id: nat, phrase: seq<string>)
    ensures PostedSomewhere(index, id, phrase) ==> exists p :: p in index && EndsHere(index, id, phrase, p)
  {
    if column: nat, at: nat :| PhrasePosted(index, id, column, phrase, at) {
      var p :| p in index && p.id == id && p.column == column && p.position == at + |phrase| - 1
        && phrase[|phrase| - 1] <= p.token;
      assert EndsHere(index, id, phrase, p);
    }
  }

  function Piece(text: string, a: int, b: int): string {
    if 0 <= a <= b <= |text| then text[a..b] else ""
  }

  /** A maximal run of word characters. */
  predicate RunAt(text: string, isWord: char -> bool, a: int, b: int) {
    && 0 <= a < b <= |text|
    && (forall k :: a <= k < b ==> isWord(text[k]))
    && (a == 0 || !isWord(text[a - 1])) && (b == |text| || !isWord(text[b]))
  }

  ghost predicate IsRun(text: string, isWord: char -> bool, f: string) {
    exists a, b :: RunAt(text, isWord, a, b) && Piece(text, a, b) == f
  }

  ghost predicate QueryTerm(text: string, isWord: char -> bool, t: string) {
    t != "" && exists f :: IsRun(text, isWord, f) && Cut(f, "_") == t
  }

  /** The runs that end before a separator are those that end before the stretch in front of
      it, and that stretch. */
  lemma RunsGrow(text: string, isWord: char -> bool, start: nat, i: nat, fields: seq<string>, grown: seq<string>)
    requires grown == if start < i then fields + [Piece(text, start, i)] else fields
    requires start <= i < |text| && !isWord(text[i])
    requires forall k :: start <= k < i ==> isWord(text[k])
    requires start == 0 || !isWord(text[start - 1])
    requires forall f :: f in fields <==> exists a, b :: RunAt(text, isWord, a, b) && b < start && Piece(text, a, b) == f
    ensures forall f :: f in grown <==>
      exists a, b :: RunAt(text, isWord, a, b) && b < i + 1 && Piece(text, a, b) == f
  {
    if start < i { assert RunAt(text, isWord, start, i); }
    forall a, b | RunAt(text, isWord, a, b) && b < i + 1 ensures b < start || (a == start && b == i) {
      RunEnds(text, isWord, a, b, start);
    }
  }

  /** Against a stretch of word characters behind a separator, a run ends before it or starts
      no earlier. */
  lemma RunEnds(text: string, isWord: char -> bool, a: int, b: int, start: nat)
    requires RunAt(text, isWord, a, b) && (start == 0 || (start <= |text| && !isWord(text[start - 1])))
    ensures b < start || start <= a
  {
  }

  lemma LastRun(text: string, isWord: char -> bool, start: nat, fields: seq<string>, grown: seq<string>)
    requires grown == if start < |text| then fields + [Piece(text, start, |text|)] else fields
    requires start <= |text| && forall k :: start <= k < |text| ==> isWord(text[k])
    requires start == 0 || (0 < start <= |text| && !isWord(text[start - 1]))
    requires forall f :: f in fields <==> exists a, b :: RunAt(text, isWord, a, b) && b < start && Piece(text, a, b) == f
    ensures forall f :: f in grown <==> IsRun(text, isWord, f)
  {
    if start < |text| {
      assert RunAt(text, isWord, start, |text|);
    }
    forall a, b | RunAt(text, isWord, a, b) ensures b < start || (a == start && b == |text| && start < |text|) {
      RunEnds(text, isWord, a, b, start);
    }
  }

  /** A scan for the rows that have, for every query term, a token starting with it. */
  ghost function PrefixScan(tok: Tokenizer, rows: Table, terms: seq<string>, scopes: seq<Scope>, live: Liveness): set<string> {
    set k | k in rows && rows[k].doc.scope in scopes && Live(live, rows[k].doc) && PrefixMatches(tok, rows[k].doc, terms)
  }

  lemma ScanIsPrefixScan(tok: Tokenizer, rows: Table, terms: seq<string>, scopes: seq<Scope>, live: Liveness)
    requires forall t :: t in terms ==> Single(tok, t)
    ensures FullScan(tok, rows, terms, scopes, live) == PrefixScan(tok, rows, terms, scopes, live)
  {
    forall k | k in rows ensures DocMatches(tok, rows[k].doc, terms) <==> PrefixMatches(tok, rows[k].doc, terms) {
      SingleTermsArePrefixes(tok, rows[k].doc, terms);
    }
  }

  class Store {
    const tok: Tokenizer
    var rows: Table
    var main: set<Posting>
    var tx: set<Posting>

    function View(): Cache
      reads this
    {
      Cache(rows, main, tx)
    }

    ghost predicate Valid()
      reads this
    {
      InStep(tok, View())
    }

    constructor (tok: Tokenizer)
      ensures Valid() && this.tok == tok && rows == map[]
    {
      this.tok := tok;
      rows, main, tx := map[], {}, {};
    }

    /** One upsert and its trigger. */
    method UpsertDoc(doc: Doc, now: string)
      requires Valid()
      modifies this`rows, this`main, this`tx
      ensures Valid()
      ensures exists unused: nat :: Unused(old(rows), unused) && View() == Upsert(tok, old(View()), doc, unused, now)
      ensures Placed(old(rows), rows, doc, now)
    {
      ghost var above := UnusedId(rows, rows.Keys);
      assert Unused(rows, above);
      var unused: nat :| Unused(rows, unused);
      UpsertInStep(tok, View(), doc, unused, now);
      if doc.key in rows {
        var was := rows[doc.key];
        var row := Row(was.id, doc, now);
        rows := rows[doc.key := row];
        RunDelete(was);
        RunInsert(row);
      } else {
        var row := Row(unused, doc, now);
        rows := rows[doc.key := row];
        RunInsert(row);
      }
    }

    /** The two deleting statements of a trigger, one of which selects nothing. */
    method RunDelete(was: Row)
      modifies this`main, this`tx
      ensures View() == AfterDelete(tok, old(View()), was)
    {
      if was.doc.scope != Transcript { main := FtsDelete(main, tok, was.id, was.doc); }
      if was.doc.scope == Transcript { tx := FtsDelete(tx, tok, was.id, was.doc); }
    }

    method RunInsert(row: Row)
      modifies this`main, this`tx
      ensures View() == AfterInsert(tok, old(View()), row)
    {
      if row.doc.scope != Transcript { main := FtsInsert(main, tok, row.id, row.doc); }
      if row.doc.scope == Transcript { tx := FtsInsert(tx, tok, row.id, row.doc); }
    }

    method DeleteKey(key: string)
      requires Valid()
      modifies this`rows, this`main, this`tx
      ensures Valid() && View() == Delete(tok, old(View()), key)
    {
      DeleteInStep(tok, View(), key);
      if key in rows {
        var was := rows[key];
        rows := rows - {key};
        RunDelete(was);
      }
    }

    method UpsertAll(docs: seq<Doc>, now: string) returns (current: set<string>)
      requires Valid()
      modifies this`rows, this`main, this`tx
      ensures Valid()
      ensures forall k :: k in current <==> Mentioned(docs, k)
      ensures Upserted(old(rows), rows, docs, now)
    {
      current := {};
      var i := 0;
      while i < |docs|
        invariant 0 <= i <= |docs|
        invariant Valid()
        invariant forall k :: k in current <==> Mentioned(docs[..i], k)
        invariant Upserted(old(rows), rows, docs[..i], now)
      {
        ghost var before := rows;
        MentionedNext(docs, i);
        current := current + {docs[i].key};
        UpsertDoc(docs[i], now);
        NextDoc(old(rows), before, rows, docs, i, now);
        i := i + 1;
      }
      assert docs[..i] == docs;
    }

    method StaleKeys(current: set<string>, scopes: seq<Scope>) returns (stale: seq<string>)
      ensures forall k :: k in stale <==> k in rows && rows[k].doc.scope in scopes && k !in current
    {
      var selected := set k | k in rows && rows[k].doc.scope in scopes;
      stale := [];
      while selected != {}
        invariant selected <= rows.Keys
        invariant forall k :: k in selected ==> rows[k].doc.scope in scopes
        invariant forall k :: k in stale ==> k in rows && rows[k].doc.scope in scopes && k !in current
        invariant forall k :: k in rows && rows[k].doc.scope in scopes && k !in current ==> k in stale || k in selected
        decreases selected
      {
        var key :| key in selected;
        selected := selected - {key};
        if key !in current { stale := stale + [key]; }
      }
    }

    method DeleteAll(stale: seq<string>)
      requires Valid()
      modifies this`rows, this`main, this`tx
      ensures Valid()
      ensures forall k :: k in rows <==> k in old(rows) && k !in stale
      ensures forall k :: k in rows ==> rows[k] == old(rows)[k]
    {
      var i := 0;
      while i < |stale|
        invariant 0 <= i <= |stale|
        invariant Valid()
        invariant forall k :: k in rows <==> k in old(rows) && k !in stale[..i]
        invariant forall k :: k in rows ==> rows[k] == old(rows)[k]
      {
        DeleteKey(stale[i]);
        assert stale[..i + 1] == stale[..i] + [stale[i]];
        i := i + 1;
      }
      assert stale[..i] == stale;
    }

    /** replaceSearchDocs: upsert every document, then delete the rows of the synced scopes
        that no document mentions. */
    method ReplaceSearchDocs(docs: seq<Doc>, scopes: seq<Scope>, now: string)
      requires Valid()
      modifies this`rows, this`main, this`tx
      ensures Valid()
      ensures Synced(old(rows), rows, docs, scopes, now)
    {
      var current := UpsertAll(docs, now);
      var stale := StaleKeys(current, scopes);
      DeleteAll(stale);
    }

    /** migrateSearchDocsTranscriptFTS: the old layout had one index and unrouted triggers;
        whatever the two indexes held is dropped and rebuilt from the table. */
    method SplitTranscriptIndex(layout: Layout)
      requires ValidTable(rows)
      requires layout != OneIndex ==> Valid()
      modifies this`main, this`tx
      ensures Valid()
      ensures layout != OneIndex ==> unchanged(this)
    {
      if layout != OneIndex { return; }
      main, tx := {}, {};
      var todo := rows.Keys;
      while todo != {}
        invariant todo <= rows.Keys
        invariant main == Rebuild(tok, rows - todo, false) && tx == Rebuild(tok, rows - todo, true)
        decreases todo
      {
        var key :| key in todo;
        var row := rows[key];
        RebuildWith(tok, rows - todo, row, false);
        RebuildWith(tok, rows - todo, row, true);
        assert rows - (todo - {key}) == (rows - todo)[key := row];
        todo := todo - {key};
        RunInsert(row);
      }
      assert rows - todo == rows;
    }

    /** searchDocsInIndex: `rank` lists the table's keys in the order of the ORDER BY. */
    method SearchInIndex(index: set<Posting>, terms: seq<string>, scopes: seq<Scope>, limit: nat,
                         live: Liveness, rank: seq<string>) returns (hits: seq<string>)
      requires Distinct(rank) && forall k :: k in rank <==> k in rows
      requires forall k :: k in rows && rows[k].doc.scope in scopes ==> Covers(index, tok, rows[k])
      ensures Limited(hits, FullScan(tok, rows, terms, scopes, live), limit)
    {
      hits := [];
      var i := 0;
      while i < |rank| && |hits| < limit
        invariant 0 <= i <= |rank|
        invariant |hits| <= limit && Distinct(hits)
        invariant forall k :: k in hits <==> k in rank[..i] && k in FullScan(tok, rows, terms, scopes, live)
      {
        var key := rank[i];
        var row := rows[key];
        assert rank[..i + 1] == rank[..i] + [key];
        assert key !in rank[..i] && key !in hits;
        if row.doc.scope in scopes && Live(live, row.doc) {
          IndexMatchesDoc(index, tok, row, terms);
          var matched := IndexLookup(index, row.id, terms);
          if matched { hits := hits + [key]; }
        }
        i := i + 1;
      }
      if |hits| < limit { assert rank[..i] == rank; }
    }

    /** The MATCH operator: every term posted somewhere under this row id. */
    method IndexLookup(index: set<Posting>, id: nat, terms: seq<string>) returns (all: bool)
      ensures all <==> IndexMatches(index, tok, id, terms)
    {
      for i := 0 to |terms|
        invariant forall k :: 0 <= k < i ==> PostedSomewhere(index, id, tok(terms[k]))
      {
        var found := FindPhrase(index, id, tok(terms[i]));
        if !found { return false; }
      }
      return true;
    }

    /** Tries every posting as the last word of the phrase. */
    method FindPhrase(index: set<Posting>, id: nat, phrase: seq<string>) returns (found: bool)
      ensures found <==> PostedSomewhere(index, id, phrase)
    {
      var todo := index;
      while todo != {}
        invariant todo <= index
        invariant forall p :: p in index && p !in todo ==> !EndsHere(index, id, phrase, p)
        decreases todo
      {
        var p :| p in todo;
        if EndsHere(index, id, phrase, p) { return true; }
        todo := todo - {p};
      }
      EndsSomewhere(index, id, phrase);
      return false;
    }

    /** strings.FieldsFunc: the maximal runs of word characters. */
    static method FieldsFunc(text: string, isWord: char -> bool) returns (fields: seq<string>)
      ensures forall f :: f in fields <==> IsRun(text, isWord, f)
    {
      fields := [];
      var start := 0;
      for i := 0 to |text|
        invariant 0 <= start <= i
        invariant forall k :: start <= k < i ==> isWord(text[k])
        invariant start == 0 || !isWord(text[start - 1])
        invariant forall f :: f in fields <==> exists a, b :: RunAt(text, isWord, a, b) && b < start && Piece(text, a, b) == f
      {
        if !isWord(text[i]) {
          ghost var before := fields;
          if start < i { fields := fields + [Piece(text, start, i)]; }
          RunsGrow(text, isWord, start, i, before, fields);
          start := i + 1;
        }
      }
      ghost var before := fields;
      if start < |text| { fields := fields + [Piece(text, start, |text|)]; }
      LastRun(text, isWord, start, before, fields);
    }

    /** ftsQuery: the lower-cased query is cut into runs of word characters (letters, digits and
        underscores), and each of them, without surrounding underscores, becomes a term once. */
    static method FtsTerms(query: string, lower: string -> string, isWord: char -> bool) returns (terms: seq<string>)
      ensures Distinct(terms)
      ensures forall t :: t in terms <==> QueryTerm(lower(query), isWord, t)
    {
      terms := [];
      var seen: set<string> := {};
      var fields := FieldsFunc(lower(query), isWord);
      for i := 0 to |fields|
        invariant Distinct(terms)
        invariant forall t :: t in seen <==> t in terms
        invariant forall t :: t in terms <==> t != "" && exists j :: 0 <= j < i && Cut(fields[j], "_") == t
      {
        var token := Cut(fields[i], "_");
        if token != "" && token !in seen {
          seen := seen + {token};
          terms := terms + [token];
        }
      }
      forall t ensures t in terms <==> QueryTerm(lower(query), isWord, t) {
        if t in terms {
          var j :| 0 <= j < |fields| && Cut(fields[j], "_") == t;
          assert fields[j] in fields;
        }
        if QueryTerm(lower(query), isWord, t) {
          var f :| IsRun(lower(query), isWord, f) && Cut(f, "_") == t;
          var j :| 0 <= j < |fields| && fields[j] == f;
        }
      }
    }

    /** The scopes of the two indexes. */
    static method SplitScopes(scopes: seq<Scope>) returns (plain: seq<Scope>, transcript: seq<Scope>)
      ensures forall s :: s in plain <==> s in scopes && s != Transcript
      ensures forall s :: s in transcript <==> s in scopes && s == Transcript
    {
      plain, transcript := [], [];
      var i := 0;
      while i < |scopes|
        invariant 0 <= i <= |scopes|
        invariant forall s :: s in plain <==> s in scopes[..i] && s != Transcript
        invariant forall s :: s in transcript <==> s in scopes[..i] && s == Transcript
      {
        assert scopes[..i + 1] == scopes[..i] + [scopes[i]];
        if scopes[i] == Transcript {
          transcript := transcript + [scopes[i]];
        } else {
          plain := plain + [scopes[i]];
        }
        i := i + 1;
      }
      assert scopes[..i] == scopes;
    }

    /** SearchDocs once the terms are known: the requested scopes are split between the two indexes, and the two result
        lists are joined and cut at the limit. */
    method SearchTerms(terms: seq<string>, scopesArg: seq<Scope>, limitArg: int,
                       live: Liveness, rank: seq<string>) returns (hits: seq<string>)
      requires Valid()
      requires Distinct(rank) && forall k :: k in rank <==> k in rows
      ensures terms == [] ==> hits == []
      ensures terms != [] ==>
        Answers(hits, FullScan(tok, rows, terms, if scopesArg == [] then DEFAULT_SCOPES else scopesArg, live), limitArg)
    {
      var limit: nat := if limitArg <= 0 then 20 else limitArg;
      var scopes := if |scopesArg| == 0 then DEFAULT_SCOPES else scopesArg;
      if |terms| == 0 { return []; }
      var plain, transcript := SplitScopes(scopes);
      forall k | k in rows ensures Covers(if rows[k].doc.scope == Transcript then tx else main, tok, rows[k]) {
        IndexCovers(tok, rows, k);
      }
      var fromMain: seq<string>, fromTx: seq<string> := [], [];
      if |plain| > 0 { fromMain := SearchInIndex(main, terms, plain, limit, live, rank); }
      if |transcript| > 0 { fromTx := SearchInIndex(tx, terms, transcript, limit, live, rank); }
      hits := fromMain + fromTx;
      ghost var all := FullScan(tok, rows, terms, scopes, live);
      SplitScan(tok, rows, terms, scopes, plain, transcript, live);
      JoinedHits(fromMain, fromTx, FullScan(tok, rows, terms, plain, live), FullScan(tok, rows, terms, transcript, live), limit);
      if |hits| > limit { hits := hits[..limit]; }
      LimitedCount(hits, all, limit);
    }

    /** SearchDocs: with at most `limit` matches a search returns exactly the rows whose scope is
        requested, whose entity is live and which match every term of the query; and when the
        tokenizer makes one word of each term, those are the rows with, for every term, a token
        that starts with it. */
    method SearchDocs(query: string, lower: string -> string, isWord: char -> bool, scopesArg: seq<Scope>, limitArg: int,
                      live: Liveness, rank: seq<string>) returns (hits: seq<string>, ghost terms: seq<string>)
      requires Valid()
      requires Distinct(rank) && forall k :: k in rank <==> k in rows
      ensures Distinct(terms) && forall t :: t in terms <==> QueryTerm(lower(query), isWord, t)
      ensures terms == [] ==> hits == []
      ensures terms != [] ==>
        Answers(hits, FullScan(tok, rows, terms, if scopesArg == [] then [Brief, Update, Memory] else scopesArg, live), limitArg)
      ensures terms != [] && (forall t :: t in terms ==> Single(tok, t)) ==>
        Answers(hits, PrefixScan(tok, rows, terms, if scopesArg == [] then DEFAULT_SCOPES else scopesArg, live), limitArg)
    {
      var words := FtsTerms(query, lower, isWord);
      terms := words;
      hits := SearchTerms(words, scopesArg, limitArg, live, rank);
      if forall t :: t in terms ==> Single(tok, t) {
        ScanIsPrefixScan(tok, rows, terms, if scopesArg == [] then DEFAULT_SCOPES else scopesArg, live);
      }
    }
  }

  /** All of them when they fit under the limit, otherwise that many distinct ones. */
  ghost predicate Answers(hits: seq<string>, all: set<string>, limitArg: int) {
    var limit := if limitArg <= 0 then 20 else limitArg;
    && Distinct(hits) && Elements(hits) <= all
    && |hits| == (if |all| <= limit then |all| else limit)
    && (|all| <= limit ==> Elements(hits) == all)
  }

  /** The scan of the scopes is the disjoint union of the scans of its two parts. */
  lemma SplitScan(tok: Tokenizer, rows: Table, terms: seq<string>, scopes: seq<Scope>,
                  plain: seq<Scope>, transcript: seq<Scope>, live: Liveness)
    requires forall s :: s in plain <==> s in scopes && s != Transcript
    requires forall s :: s in transcript <==> s in scopes && s == Transcript
    ensures FullScan(tok, rows, terms, plain, live) !! FullScan(tok, rows, terms, transcript, live)
    ensures FullScan(tok, rows, terms, scopes, live)
         == FullScan(tok, rows, terms, plain, live) + FullScan(tok, rows, terms, transcript, live)
  {
  }

  /** A distinct list of members of a set, complete unless it is as long as the limit. */
  ghost predicate Limited(s: seq<string>, all: set<string>, limit: nat) {
    && Distinct(s) && |s| <= limit && Elements(s) <= all
    && (|s| < limit ==> Elements(s) == all)
  }

  lemma LimitedCount(s: seq<string>, all: set<string>, limit: nat)
    requires Limited(s, all, limit)
    ensures |s| == (if |all| <= limit then |all| else limit)
    ensures |all| <= limit ==> Elements(s) == all
  {
    DistinctCount(s);
    Bigger(Elements(s), all);
  }

  lemma JoinedDistinct(a: seq<string>, b: seq<string>)
    requires Distinct(a) && Distinct(b) && Elements(a) !! Elements(b)
    ensures Distinct(a + b)
  {
    forall i, j | 0 <= i < j < |a + b| ensures (a + b)[i] != (a + b)[j] {
      if i < |a| <= j { assert a[i] in Elements(a) && b[j - |a|] in Elements(b); }
    }
  }

  /** Two limited lists of two disjoint sets, joined and cut, are a limited list of both. */
  lemma JoinedHits(a: seq<string>, b: seq<string>, allA: set<string>, allB: set<string>, limit: nat)
    requires Limited(a, allA, limit) && Limited(b, allB, limit) && allA !! allB
    ensures var joined := a + b;
      Limited(if |joined| > limit then joined[..limit] else joined, allA + allB, limit)
  {
    JoinedDistinct(a, b);
    JoinedElements(a, b);
    CutLimited(a + b, allA + allB, limit);
  }

  lemma CutLimited(s: seq<string>, all: set<string>, limit: nat)
    requires Distinct(s) && Elements(s) <= all && (|s| < limit ==> Elements(s) == all)
    ensures Limited(if |s| > limit then s[..limit] else s, all, limit)
  {
    if |s| > limit {
      forall x | x in Elements(s[..limit]) ensures x in Elements(s) {
        var i :| 0 <= i < limit && s[..limit][i] == x;
        assert s[i] == x;
      }
    }
  }

  lemma {:induction false} Bigger(small: set<string>, big: set<string>)
    requires small <= big
    ensures |small| <= |big|
    ensures |small| == |big| ==> small == big
    decreases small
  {
    if small != {} {
      var x :| x in small;
      Bigger(small - {x}, big - {x});
      assert big == (big - {x}) + {x} && small == (small - {x}) + {x};
    } else if |big| == 0 {
      assert big == {};
    }
  }

  /** After a document at position i has been upserted. */
  lemma NextDoc(start: Table, before: Table, after: Table, docs: seq<Doc>, i: nat, now: string)
    requires i < |docs| && Upserted(start, before, docs[..i], now) && Placed(before, after, docs[i], now)
    ensures Upserted(start, after, docs[..i + 1], now)
  {
    var more := docs[..i + 1];
    MentionedNext(docs, i);
    forall k | Mentioned(more, k)
      ensures k in after && after[k].doc == LastDoc(more, k) && after[k].updatedAt == now
      ensures k in start ==> after[k].id == start[k].id
    {
      NextDocRow(start, before, after, docs, i, now, k);
    }
  }

  lemma NextDocRow(start: Table, before: Table, after: Table, docs: seq<Doc>, i: nat, now: string, k: string)
    requires i < |docs| && Upserted(start, before, docs[..i], now) && Placed(before, after, docs[i], now)
    requires Mentioned(docs[..i + 1], k)
    ensures k in after && after[k].doc == LastDoc(docs[..i + 1], k) && after[k].updatedAt == now
    ensures k in start ==> after[k].id == start[k].id
  {
    LastDocNext(docs, i, k);
  }

  lemma MentionedNext(docs: seq<Doc>, i: nat)
    requires i < |docs|
    ensures forall k :: Mentioned(docs[..i + 1], k) <==> Mentioned(docs[..i], k) || k == docs[i].key
  {
    var more, less := docs[..i + 1], docs[..i];
    forall k ensures Mentioned(more, k) <==> Mentioned(less, k) || k == docs[i].key {
      if Mentioned(less, k) {
        var j :| 0 <= j < |less| && less[j].key == k;
        assert more[j].key == k;
      }
      if k == docs[i].key { assert more[i].key == k; }
      if Mentioned(more, k) && k != docs[i].key {
        var j :| 0 <= j < |more| && more[j].key == k;
        assert less[j].key == k;
      }
    }
  }

  lemma LastDocNext(docs: seq<Doc>, i: nat, k: string)
    requires i < |docs| && Mentioned(docs[..i + 1], k)
    ensures k != docs[i].key ==> Mentioned(docs[..i], k)
    ensures LastDoc(docs[..i + 1], k) == if k == docs[i].key then docs[i] else LastDoc(docs[..i], k)
  {
    MentionedNext(docs, i);
    assert docs[..i + 1][..i] == docs[..i];
  }

  lemma JoinedElements(a: seq<string>, b: seq<string>)
    ensures Elements(a + b) == Elements(a) + Elements(b)
  {
    forall x | x in Elements(b) ensures x in Elements(a + b) {
      var i :| 0 <= i < |b| && b[i] == x;
      assert (a + b)[|a| + i] == x;
    }
    forall x | x in Elements(a) ensures x in Elements(a + b) {
      var i :| 0 <= i < |a| && a[i] == x;
      assert (a + b)[i] == x;
    }
  }
}
