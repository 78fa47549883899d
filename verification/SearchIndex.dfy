/** The search cache: a table of documents, two inverted indexes kept by triggers, the scoped
    sync that replaces documents, and the search that reads the indexes. */
module SearchIndex {
  import opened Text

  datatype Scope = Brief | Update | Transcript | Memory

  datatype EntityType = TaskEntity | ProjectEntity | PlaybookEntity | MemoryEntity

  datatype Doc = Doc(
    key: string, scope: Scope, entityType: EntityType, slug: string,
    title: string, path: string, mtime: string, content: string)

  datatype Row = Row(id: nat, doc: Doc, updatedAt: string)

  /** search_docs, by its unique doc_key. */
  type Table = map<string, Row>

  /** One token occurrence; column 0 is the title, column 1 the content. */
  datatype Posting = Posting(id: nat, column: nat, position: nat, token: string)

  type Tokenizer = string -> seq<string>

  ghost predicate ValidTable(rows: Table) {
    && (forall k :: k in rows ==> rows[k].doc.key == k)
    && (forall j, k :: j in rows && k in rows && j != k ==> rows[j].id != rows[k].id)
  }

  function ColumnPostings(id: nat, column: nat, tokens: seq<string>): set<Posting> {
    set i | 0 <= i < |tokens| :: Posting(id, column, i, tokens[i])
  }

  function Postings(tok: Tokenizer, id: nat, doc: Doc): set<Posting> {
    ColumnPostings(id, 0, tok(doc.title)) + ColumnPostings(id, 1, tok(doc.content))
  }

  /** What indexing the table's rows of one kind from scratch would give. */
  ghost function Rebuild(tok: Tokenizer, rows: Table, transcripts: bool): set<Posting> {
    set k, p | k in rows && (rows[k].doc.scope == Transcript) == transcripts && p in Postings(tok, rows[k].id, rows[k].doc) :: p
  }

  ghost predicate Indexed(tok: Tokenizer, rows: Table, main: set<Posting>, tx: set<Posting>) {
    ValidTable(rows) && main == Rebuild(tok, rows, false) && tx == Rebuild(tok, rows, true)
  }

  // ----- the triggers -----

  /** 'delete' takes out the postings of the values it is handed, whatever they are. */
  function FtsDelete(index: set<Posting>, tok: Tokenizer, id: nat, doc: Doc): set<Posting> {
    index - Postings(tok, id, doc)
  }

  function FtsInsert(index: set<Posting>, tok: Tokenizer, id: nat, doc: Doc): set<Posting> {
    index + Postings(tok, id, doc)
  }

  lemma RebuildWithout(tok: Tokenizer, rows: Table, key: string, transcripts: bool)
    requires ValidTable(rows) && key in rows
    ensures Rebuild(tok, rows - {key}, transcripts) ==
      (if (rows[key].doc.scope == Transcript) == transcripts
       then FtsDelete(Rebuild(tok, rows, transcripts), tok, rows[key].id, rows[key].doc)
       else Rebuild(tok, rows, transcripts))
  {
    var less, gone := rows - {key}, Postings(tok, rows[key].id, rows[key].doc);
    forall p ensures p in Rebuild(tok, less, transcripts) <==>
      p in Rebuild(tok, rows, transcripts) && !((rows[key].doc.scope == Transcript) == transcripts && p in gone)
    {
      if p in Rebuild(tok, less, transcripts) {
        var k :| k in less && (less[k].doc.scope == Transcript) == transcripts && p in Postings(tok, less[k].id, less[k].doc);
        assert k in rows && rows[k] == less[k] && p.id == rows[k].id;
      }
      if p in Rebuild(tok, rows, transcripts) {
        var k :| k in rows && (rows[k].doc.scope == Transcript) == transcripts && p in Postings(tok, rows[k].id, rows[k].doc);
        if k != key { assert k in less && less[k] == rows[k]; }
      }
    }
  }

  lemma RebuildWith(tok: Tokenizer, rows: Table, row: Row, transcripts: bool)
    requires row.doc.key !in rows
    ensures Rebuild(tok, rows[row.doc.key := row], transcripts) ==
      (if (row.doc.scope == Transcript) == transcripts
       then FtsInsert(Rebuild(tok, rows, transcripts), tok, row.id, row.doc)
       else Rebuild(tok, rows, transcripts))
  {
    var more := rows[row.doc.key := row];
    forall p ensures p in Rebuild(tok, more, transcripts) <==>
      p in (if (row.doc.scope == Transcript) == transcripts
            then FtsInsert(Rebuild(tok, rows, transcripts), tok, row.id, row.doc)
            else Rebuild(tok, rows, transcripts))
    {
      if p in Rebuild(tok, rows, transcripts) {
        var k :| k in rows && (rows[k].doc.scope == Transcript) == transcripts && p in Postings(tok, rows[k].id, rows[k].doc);
        assert more[k] == rows[k];
      }
      if (row.doc.scope == Transcript) == transcripts && p in Postings(tok, row.id, row.doc) {
        assert more[row.doc.key] == row;
      }
    }
  }

  lemma {:induction false} UnusedId(rows: Table, keys: set<string>) returns (id: nat)
    requires keys <= rows.Keys
    ensures forall k :: k in keys ==> rows[k].id < id
    decreases keys
  {
    if keys == {} {
      id := 0;
    } else {
      var k :| k in keys;
      id := UnusedId(rows, keys - {k});
      if rows[k].id >= id { id := rows[k].id + 1; }
    }
  }

  // ----- scoped sync -----

  /** The last document with this key, which is the one whose upsert ends up in the row. */
  function LastDoc(docs: seq<Doc>, key: string): (d: Doc)
    requires exists i :: 0 <= i < |docs| && docs[i].key == key
    ensures d in docs && d.key == key
  {
    var n := |docs| - 1;
    if docs[n].key == key then docs[n]
    else
      assert exists i :: 0 <= i < |docs[..n]| && docs[..n][i].key == key by {
        var i :| 0 <= i < |docs| && docs[i].key == key;
        assert docs[..n][i].key == key;
      }
      LastDoc(docs[..n], key)
  }

  predicate Mentioned(docs: seq<Doc>, key: string) {
    exists i :: 0 <= i < |docs| && docs[i].key == key
  }

  /** The table after upserting the documents, before stale rows go. */
  ghost predicate Upserted(before: Table, after: Table, docs: seq<Doc>, now: string) {
    && (forall k :: k in after <==> k in before || Mentioned(docs, k))
    && (forall k :: k in before && !Mentioned(docs, k) ==> after[k] == before[k])
    && (forall k :: Mentioned(docs, k) ==>
          after[k].doc == LastDoc(docs, k) && after[k].updatedAt == now && (k in before ==> after[k].id == before[k].id))
  }

  /** What a sync leaves, for every table and every list of documents: the last document of
      each key, and the untouched rows of the scopes that were not synced. */
  ghost predicate Synced(before: Table, after: Table, docs: seq<Doc>, scopes: seq<Scope>, now: string) {
    && (forall k :: k in after <==> Mentioned(docs, k) || (k in before && before[k].doc.scope !in scopes))
    && (forall k :: Mentioned(docs, k) ==>
          after[k].doc == LastDoc(docs, k) && after[k].updatedAt == now && (k in before ==> after[k].id == before[k].id))
    && (forall k :: k in after && !Mentioned(docs, k) ==> after[k] == before[k])
  }

  /** Rows of the other scopes are as they were, and no row has joined them. */
  ghost predicate OthersUntouched(before: Table, after: Table, scopes: seq<Scope>) {
    && (forall k :: k in before && before[k].doc.scope !in scopes ==> k in after && after[k] == before[k])
    && (forall k :: k in after && after[k].doc.scope !in scopes ==> k in before && after[k] == before[k])
  }

  /** For documents of the requested scopes, a sync leaves the other scopes alone exactly
      when no document's key is already used by a row of another scope. */
  lemma SyncIsolationExact(before: Table, after: Table, docs: seq<Doc>, scopes: seq<Scope>, now: string)
    requires Synced(before, after, docs, scopes, now)
    requires forall d :: d in docs ==> d.scope in scopes
    ensures OthersUntouched(before, after, scopes) <==>
      forall d :: d in docs && d.key in before ==> before[d.key].doc.scope in scopes
  {
    forall k | Mentioned(docs, k) ensures after[k].doc.scope in scopes && exists d :: d in docs && d.key == k {
      assert LastDoc(docs, k) in docs;
    }
    forall d | d in docs ensures Mentioned(docs, d.key) {
      var i :| 0 <= i < |docs| && docs[i] == d;
    }
  }

  /** Syncing the same documents again changes nothing but timestamps. */
  lemma SyncTwice(before: Table, once: Table, twice: Table, docs: seq<Doc>, scopes: seq<Scope>, now: string, later: string)
    requires Synced(before, once, docs, scopes, now) && Synced(once, twice, docs, scopes, later)
    ensures twice.Keys == once.Keys
    ensures forall k :: k in once ==> twice[k] == once[k].(updatedAt := if Mentioned(docs, k) then later else once[k].updatedAt)
  {
    forall k | k in once ensures twice[k] == once[k].(updatedAt := if Mentioned(docs, k) then later else once[k].updatedAt) {
      if !Mentioned(docs, k) { assert once[k] == before[k]; }
    }
  }

  /** Timestamps are not indexed, so the second sync leaves both indexes as they were. */
  lemma SameDocsSameIndex(tok: Tokenizer, once: Table, twice: Table, transcripts: bool)
    requires twice.Keys == once.Keys
    requires forall k :: k in once ==> twice[k].id == once[k].id && twice[k].doc == once[k].doc
    ensures Rebuild(tok, twice, transcripts) == Rebuild(tok, once, transcripts)
  {
    forall p ensures p in Rebuild(tok, twice, transcripts) <==> p in Rebuild(tok, once, transcripts) {
      if p in Rebuild(tok, twice, transcripts) {
        var k :| k in twice && (twice[k].doc.scope == Transcript) == transcripts && p in Postings(tok, twice[k].id, twice[k].doc);
        assert k in once;
      }
    }
  }

  // ----- matching -----

  /** A phrase of the query at one place of a token list, its last word as a prefix. */
  predicate PhraseAt(tokens: seq<string>, phrase: seq<string>, at: nat) {
    && |phrase| > 0 && at + |phrase| <= |tokens|
    && (forall i :: 0 <= i < |phrase| - 1 ==> tokens[at + i] == phrase[i])
    && phrase[|phrase| - 1] <= tokens[at + |phrase| - 1]
  }

  predicate PhraseIn(tokens: seq<string>, phrase: seq<string>) {
    exists at :: 0 <= at <= |tokens| && PhraseAt(tokens, phrase, at)
  }

  /** A document read in full. */
  predicate DocMatches(tok: Tokenizer, doc: Doc, terms: seq<string>) {
    forall t :: t in terms ==> PhraseIn(tok(doc.title), tok(t)) || PhraseIn(tok(doc.content), tok(t))
  }

  /** The same question put to an inverted index. */
  predicate PhrasePosted(index: set<Posting>, id: nat, column: nat, phrase: seq<string>, at: nat) {
    && |phrase| > 0
    && (forall i :: 0 <= i < |phrase| - 1 ==> Posting(id, column, at + i, phrase[i]) in index)
    && exists p :: p in index && p.id == id && p.column == column && p.position == at + |phrase| - 1
         && phrase[|phrase| - 1] <= p.token
  }

  ghost predicate PostedSomewhere(index: set<Posting>, id: nat, phrase: seq<string>) {
    exists column: nat, at: nat :: PhrasePosted(index, id, column, phrase, at)
  }

  ghost predicate IndexMatches(index: set<Posting>, tok: Tokenizer, id: nat, terms: seq<string>) {
    forall t :: t in terms ==> PostedSomewhere(index, id, tok(t))
  }

  /** The index holds exactly this row's postings under its id. */
  ghost predicate Covers(index: set<Posting>, tok: Tokenizer, row: Row) {
    forall p :: p in index && p.id == row.id <==> p in Postings(tok, row.id, row.doc)
  }

  lemma IndexCovers(tok: Tokenizer, rows: Table, key: string)
    requires ValidTable(rows) && key in rows
    ensures Covers(Rebuild(tok, rows, rows[key].doc.scope == Transcript), tok, rows[key])
  {
    var transcripts := rows[key].doc.scope == Transcript;
    forall p | p in Rebuild(tok, rows, transcripts) && p.id == rows[key].id ensures p in Postings(tok, rows[key].id, rows[key].doc) {
      var k :| k in rows && (rows[k].doc.scope == Transcript) == transcripts && p in Postings(tok, rows[k].id, rows[k].doc);
      assert rows[k].id == p.id;
    }
  }

  lemma PhraseFound(index: set<Posting>, tok: Tokenizer, row: Row, column: nat, tokens: seq<string>, phrase: seq<string>, at: nat)
    requires Covers(index, tok, row) && column <= 1
    requires tokens == if column == 0 then tok(row.doc.title) else tok(row.doc.content)
    ensures PhrasePosted(index, row.id, column, phrase, at) <==> PhraseAt(tokens, phrase, at)
  {
    assert forall i: nat, w :: Posting(row.id, column, i, w) in index <==> i < |tokens| && tokens[i] == w by {
      forall i: nat, w ensures Posting(row.id, column, i, w) in index <==> i < |tokens| && tokens[i] == w {
        assert Posting(row.id, column, i, w).id == row.id;
        assert Posting(row.id, column, i, w) in index <==> Posting(row.id, column, i, w) in Postings(tok, row.id, row.doc);
      }
    }
    if PhraseAt(tokens, phrase, at) {
      var last := at + |phrase| - 1;
      assert Posting(row.id, column, last, tokens[last]) in index;
    }
    if PhrasePosted(index, row.id, column, phrase, at) {
      var p :| p in index && p.id == row.id && p.column == column && p.position == at + |phrase| - 1 && phrase[|phrase| - 1] <= p.token;
      assert p == Posting(row.id, column, p.position, p.token);
    }
  }

  /** Reading the index is reading the document. */
  lemma IndexMatchesDoc(index: set<Posting>, tok: Tokenizer, row: Row, terms: seq<string>)
    requires Covers(index, tok, row)
    ensures IndexMatches(index, tok, row.id, terms) <==> DocMatches(tok, row.doc, terms)
  {
    forall t | t in terms
      ensures PostedSomewhere(index, row.id, tok(t)) <==>
        PhraseIn(tok(row.doc.title), tok(t)) || PhraseIn(tok(row.doc.content), tok(t))
    {
      if column: nat, at: nat :| PhrasePosted(index, row.id, column, tok(t), at) {
        var p :| p in index && p.id == row.id && p.column == column && p.position == at + |tok(t)| - 1
          && tok(t)[|tok(t)| - 1] <= p.token;
        assert p in Postings(tok, row.id, row.doc);
        var tokens := if column == 0 then tok(row.doc.title) else tok(row.doc.content);
        PhraseFound(index, tok, row, column, tokens, tok(t), at);
        assert PhraseIn(tokens, tok(t));
      }
      if PhraseIn(tok(row.doc.title), tok(t)) {
        var at: nat :| at <= |tok(row.doc.title)| && PhraseAt(tok(row.doc.title), tok(t), at);
        PhraseFound(index, tok, row, 0, tok(row.doc.title), tok(t), at);
      }
      if PhraseIn(tok(row.doc.content), tok(t)) {
        var at: nat :| at <= |tok(row.doc.content)| && PhraseAt(tok(row.doc.content), tok(t), at);
        PhraseFound(index, tok, row, 1, tok(row.doc.content), tok(t), at);
      }
    }
  }

  /** Some token of the list starts with the prefix. */
  ghost predicate HasPrefix(tokens: seq<string>, prefix: string) {
    exists w :: w in tokens && prefix <= w
  }

  lemma OneWordPhrase(tokens: seq<string>, word: string)
    ensures PhraseIn(tokens, [word]) <==> HasPrefix(tokens, word)
  {
    if w :| w in tokens && word <= w {
      var i :| 0 <= i < |tokens| && tokens[i] == w;
      assert PhraseAt(tokens, [word], i);
    }
    if PhraseIn(tokens, [word]) {
      var at :| 0 <= at <= |tokens| && PhraseAt(tokens, [word], at);
      assert tokens[at] in tokens;
    }
  }

  /** The phrase is found exactly where some token starts with the prefix. */
  ghost predicate MeansPrefix(phrase: seq<string>, prefix: string) {
    forall tokens: seq<string> :: PhraseIn(tokens, phrase) <==> HasPrefix(tokens, prefix)
  }

  /** Which phrases mean "some token starts with this", exactly: the one-word phrase of it. */
  lemma PrefixExactly(phrase: seq<string>, prefix: string)
    ensures MeansPrefix(phrase, prefix) <==> phrase == [prefix]
  {
    forall tokens: seq<string> ensures PhraseIn(tokens, [prefix]) <==> HasPrefix(tokens, prefix) {
      OneWordPhrase(tokens, prefix);
    }
    if MeansPrefix(phrase, prefix) {
      assert prefix in [prefix];
      assert PhraseIn([prefix], phrase);
      OneWord(phrase, prefix);
      assert PhraseIn([phrase[0]], phrase) by { OneWordPhrase([phrase[0]], phrase[0]); assert phrase[0] in [phrase[0]]; }
      assert HasPrefix([phrase[0]], prefix);
      assert phrase[0] == prefix;
    }
  }

  lemma OneWord(phrase: seq<string>, token: string)
    requires PhraseIn([token], phrase)
    ensures |phrase| == 1 && phrase == [phrase[0]] && phrase[0] <= token
  {
    var at :| 0 <= at <= |[token]| && PhraseAt([token], phrase, at);
  }

  /** The tokenizer makes one word of the term. */
  predicate Single(tok: Tokenizer, term: string) {
    |tok(term)| == 1
  }

  /** Every query term, as the tokenizer reads it, starts some token of the document. */
  ghost predicate PrefixMatches(tok: Tokenizer, doc: Doc, terms: seq<string>) {
    forall t :: t in terms ==>
      |tok(t)| > 0 && (HasPrefix(tok(doc.title), tok(t)[0]) || HasPrefix(tok(doc.content), tok(t)[0]))
  }

  /** For a query of single-word terms, matching is starting some token. */
  lemma SingleTermsArePrefixes(tok: Tokenizer, doc: Doc, terms: seq<string>)
    requires forall t :: t in terms ==> Single(tok, t)
    ensures DocMatches(tok, doc, terms) <==> PrefixMatches(tok, doc, terms)
  {
    forall t | t in terms
      ensures PhraseIn(tok(doc.title), tok(t)) <==> HasPrefix(tok(doc.title), tok(t)[0])
      ensures PhraseIn(tok(doc.content), tok(t)) <==> HasPrefix(tok(doc.content), tok(t)[0])
    {
      assert tok(t) == [tok(t)[0]];
      OneWordPhrase(tok(doc.title), tok(t)[0]);
      OneWordPhrase(tok(doc.content), tok(t)[0]);
    }
  }

  /** A term means a prefix in every document exactly when the tokenizer makes one word of it,
      and then of that word, folded as it is: `café` may mean `cafe`, and a term with an
      underscore inside is a phrase that means no prefix at all. */
  lemma TermMeansPrefixExactly(tok: Tokenizer, term: string)
    ensures (exists prefix :: MeansPrefix(tok(term), prefix)) <==> Single(tok, term)
    ensures Single(tok, term) ==> MeansPrefix(tok(term), tok(term)[0])
  {
    if Single(tok, term) {
      assert tok(term) == [tok(term)[0]];
      PrefixExactly(tok(term), tok(term)[0]);
    }
    if prefix :| MeansPrefix(tok(term), prefix) {
      PrefixExactly(tok(term), prefix);
    }
  }
}
