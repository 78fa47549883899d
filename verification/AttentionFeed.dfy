/** The attention feed: cards coalesced by thread, and the operator's decisions on them. */
module AttentionFeed {
  import opened Text

  type Id = string

  /** A row of attention_feed; "" is NULL in the optional columns. `content` is the list of the
      columns that a coalescing write replaces and nothing here reads. */
  datatype Card = Card(thread: string, status: string, created: string, ts: string, content: seq<string>,
                       linked: string, snooze: string, acted: string, retriaging: string)

  type Feed = map<Id, Card>

  datatype Item = Item(id: Id, thread: string, action: string, status: string, created: string, ts: string,
                       content: seq<string>, linked: string, snooze: string, acted: string)

  datatype Outcome = Refused | Written(id: Id, surfaced: bool)

  /** The CHECK on the status column. */
  predicate Lawful(status: string) {
    status in ["new", "acted", "dismissed", "snoozed", "deferred"]
  }

  predicate Open(card: Card) {
    card.status == "new"
  }

  predicate Dismissed(card: Card) {
    card.status == "dismissed"
  }

  lemma OpenIsNotDismissed(card: Card)
    ensures !(Open(card) && Dismissed(card))
  {
    assert |"new"| != |"dismissed"|;
  }

  /** An item without a status is a new one. */
  predicate IsNew(item: Item) {
    item.status == "" || item.status == "new"
  }

  /** strconv.ParseFloat on the trimmed text, where it is a finite number. */
  type Parser = string -> Option<real>

  /** feedTSSameOrOlder. */
  predicate SameOrOlder(parse: Parser, incoming: string, existing: string) {
    var i, e := parse(incoming), parse(existing);
    i.Some? && e.Some? && i.value <= e.value
  }

  // ----- the lookup -----

  predicate Candidate(feed: Feed, id: Id, thread: string, forNew: bool) {
    id in feed && feed[id].thread == thread && (Open(feed[id]) || (forNew && Dismissed(feed[id])))
  }

  function Candidates(feed: Feed, thread: string, forNew: bool): set<Id> {
    set id | id in feed && Candidate(feed, id, thread, forNew)
  }

  /** Open cards first, then the latest created, then the greatest id. */
  predicate Ahead(a: Id, ca: Card, b: Id, cb: Card) {
    if Open(ca) != Open(cb) then Open(ca)
    else if ca.created != cb.created then Less(cb.created, ca.created)
    else Less(b, a)
  }

  lemma AheadTotal(a: Id, ca: Card, b: Id, cb: Card)
    ensures a != b ==> (Ahead(a, ca, b, cb) <==> !Ahead(b, cb, a, ca))
  {
    LessTotal(a, b);
    LessTotal(ca.created, cb.created);
  }

  lemma AheadTransitive(a: Id, ca: Card, b: Id, cb: Card, c: Id, cc: Card)
    requires Ahead(a, ca, b, cb) && Ahead(b, cb, c, cc)
    ensures Ahead(a, ca, c, cc)
  {
    LessTotal(ca.created, cb.created);
    LessTotal(cb.created, cc.created);
    if Less(cb.created, ca.created) && Less(cc.created, cb.created) {
      LessTransitive(cc.created, cb.created, ca.created);
      LessTotal(ca.created, cc.created);
    }
    if Less(c, b) && Less(b, a) { LessTransitive(c, b, a); }
  }

  predicate First(feed: Feed, some: set<Id>, id: Id)
    requires some <= feed.Keys
  {
    id in some && forall b :: b in some && b != id ==> Ahead(id, feed[id], b, feed[b])
  }

  lemma {:induction false} HasFirst(feed: Feed, some: set<Id>)
    requires some != {} && some <= feed.Keys
    ensures exists id :: First(feed, some, id)
    decreases some
  {
    var x :| x in some;
    if some - {x} == {} {
      assert some == {x};
      assert First(feed, some, x);
    } else {
      HasFirst(feed, some - {x});
      var y :| First(feed, some - {x}, y);
      AheadTotal(x, feed[x], y, feed[y]);
      var id := if Ahead(x, feed[x], y, feed[y]) then x else y;
      forall b | b in some && b != id ensures Ahead(id, feed[id], b, feed[b]) {
        if id == x && b != y { AheadTransitive(x, feed[x], y, feed[y], b, feed[b]); }
      }
      assert First(feed, some, id);
    }
  }

  lemma FirstIsOne(feed: Feed, some: set<Id>, a: Id, b: Id)
    requires some <= feed.Keys && First(feed, some, a) && First(feed, some, b)
    ensures a == b
  {
    AheadTotal(a, feed[a], b, feed[b]);
  }

  /** The row the upsert coalesces onto. */
  ghost function Pick(feed: Feed, thread: string, forNew: bool): (r: Option<Id>)
    ensures r.None? <==> Candidates(feed, thread, forNew) == {}
    ensures r.Some? ==> First(feed, Candidates(feed, thread, forNew), r.value)
  {
    var some := Candidates(feed, thread, forNew);
    if some == {} then None
    else
      HasFirst(feed, some);
      var id :| First(feed, some, id);
      Some(id)
  }

  /** An open card of the thread is picked before any other. */
  lemma OpenIsPicked(feed: Feed, thread: string, forNew: bool, open: Id)
    requires open in feed && feed[open].thread == thread && Open(feed[open])
    ensures var r := Pick(feed, thread, forNew); r.Some? && Open(feed[r.value])
  {
    assert open in Candidates(feed, thread, forNew);
  }

  // ----- the operations on tables -----

  predicate Complete(item: Item) {
    item.id != "" && item.thread != "" && item.action != ""
  }

  /** The row after coalescing an item onto it. */
  function Coalesced(card: Card, item: Item): Card {
    var written := card.(content := item.content, ts := item.ts, linked := item.linked);
    if !IsNew(item) then written
    else written.(status := "new", snooze := "", acted := "", retriaging := "",
                  created := if item.created != "" then item.created else card.created)
  }

  function Inserted(item: Item): Card {
    Card(item.thread, if item.status == "" then "new" else item.status, item.created, item.ts, item.content,
         item.linked, item.snooze, item.acted, "")
  }

  /** A dismissed card that the item must not bring back. */
  predicate StaysDismissed(parse: Parser, card: Card, item: Item) {
    IsNew(item) && Dismissed(card) && SameOrOlder(parse, item.ts, card.ts)
  }

  /** UpsertFeedItemSurfaced. */
  ghost function Upserted(parse: Parser, feed: Feed, item: Item): (Feed, Outcome) {
    if !Complete(item) then (feed, Refused)
    else
      var found := Pick(feed, item.thread, IsNew(item));
      if found.Some? then
        if StaysDismissed(parse, feed[found.value], item) then (feed, Written(found.value, false))
        else (feed[found.value := Coalesced(feed[found.value], item)], Written(found.value, IsNew(item)))
      else if item.id in feed || !Lawful(Inserted(item).status) then (feed, Refused)
      else (feed[item.id := Inserted(item)], Written(item.id, true))
  }

  /** ResolveOpenFeedItemsByThread. */
  function Resolved(feed: Feed, thread: string, at: string): Feed {
    if thread == "" then feed
    else
      map id | id in feed ::
        if feed[id].thread == thread && Open(feed[id]) then feed[id].(status := "acted", acted := at) else feed[id]
  }

  /** SetFeedItemStatus. */
  function StatusSet(feed: Feed, id: Id, status: string, at: string): Feed {
    if id in feed && Lawful(status) then feed[id := feed[id].(status := status, acted := at)] else feed
  }

  /** SetFeedItemActed. */
  function ActedSet(feed: Feed, id: Id, linked: string, at: string): Feed {
    if id in feed then feed[id := feed[id].(status := "acted", acted := at, linked := linked)] else feed
  }

  // ----- one call -----

  /** The flag tells whether the returned card is open, exactly for new items: any other item
      that is inserted is reported as surfaced though its card is closed, and one coalesced onto
      an open card is reported as not surfaced though that card stays open. */
  lemma SurfacedExactly(parse: Parser, feed: Feed, item: Item)
    ensures var (after, outcome) := Upserted(parse, feed, item);
      outcome.Written? ==>
        && outcome.id in after && after[outcome.id].thread == item.thread
        && ((outcome.surfaced <==> Open(after[outcome.id])) <==> IsNew(item))
  {
    var found := Pick(feed, item.thread, IsNew(item));
    if found.Some? { OpenIsNotDismissed(feed[found.value]); }
  }

  /** Only the returned row may change; a refused item changes nothing. */
  lemma UpsertTouchesOne(parse: Parser, feed: Feed, item: Item, id: Id)
    ensures var (after, outcome) := Upserted(parse, feed, item);
      (outcome.Refused? || id != outcome.id) ==> (id in after <==> id in feed) && (id in feed ==> after[id] == feed[id])
  {
  }

  /** A surfaced card carries what the item says; a coalesced one keeps its thread. */
  lemma SurfacedCarriesItem(parse: Parser, feed: Feed, item: Item)
    requires Upserted(parse, feed, item).1.Written? && Upserted(parse, feed, item).1.surfaced
    ensures var (after, outcome) := Upserted(parse, feed, item);
      var card := after[outcome.id];
      card.content == item.content && card.ts == item.ts && card.linked == item.linked && card.thread == item.thread
  {
  }

  /** The thread has no open card, and this is the foremost of its dismissed ones. */
  ghost predicate Foremost(feed: Feed, thread: string, id: Id) {
    && id in feed && feed[id].thread == thread && Dismissed(feed[id])
    && (forall b :: b in feed && feed[b].thread == thread ==> !Open(feed[b]))
    && (forall b :: b in feed && feed[b].thread == thread && Dismissed(feed[b]) && b != id ==>
          Ahead(id, feed[id], b, feed[b]))
  }

  lemma ForemostIsPicked(feed: Feed, thread: string, id: Id)
    requires id in feed && Dismissed(feed[id])
    ensures Pick(feed, thread, true) == Some(id) <==> Foremost(feed, thread, id)
  {
    OpenIsNotDismissed(feed[id]);
    var some := Candidates(feed, thread, true);
    if Pick(feed, thread, true) == Some(id) {
      forall b | b in feed && feed[b].thread == thread ensures !Open(feed[b]) {
        if Open(feed[b]) { OpenIsPicked(feed, thread, true, b); }
      }
    }
    if Foremost(feed, thread, id) {
      assert id in some;
      assert First(feed, some, id);
      FirstIsOne(feed, some, id, Pick(feed, thread, true).value);
    }
  }

  /** A dismissed card comes back exactly when the item is new, the card is the foremost of a
      thread without open cards, and the item's time stamp is not numeric, the card's is not, or
      the item's is later. */
  lemma ReopensExactly(parse: Parser, feed: Feed, item: Item, id: Id)
    requires id in feed && Dismissed(feed[id]) && Complete(item)
    ensures Open(Upserted(parse, feed, item).0[id]) <==>
      IsNew(item) && Foremost(feed, item.thread, id) && Later(parse, item.ts, feed[id].ts)
  {
    OpenIsNotDismissed(feed[id]);
    ForemostIsPicked(feed, item.thread, id);
    assert id !in Candidates(feed, item.thread, false);
  }

  /** Not both numeric, or strictly later. */
  predicate Later(parse: Parser, incoming: string, existing: string) {
    var i, e := parse(incoming), parse(existing);
    i.None? || e.None? || i.value > e.value
  }

  // ----- what the operations write, column by column -----

  /** The item has no status or the status 'new'. */
  predicate NewItem(item: Item) {
    item.status == "" || item.status == "new"
  }

  /** The card belongs to the item's thread and is open, or, for a new item, dismissed. */
  predicate Eligible(feed: Feed, id: Id, item: Item) {
    id in feed && feed[id].thread == item.thread
    && (feed[id].status == "new" || (NewItem(item) && feed[id].status == "dismissed"))
  }

  /** An open card before a dismissed one, then the later creation, then the greater id. */
  predicate Leads(feed: Feed, a: Id, b: Id)
    requires a in feed && b in feed
  {
    || (feed[a].status == "new" && feed[b].status != "new")
    || ((feed[a].status == "new" <==> feed[b].status == "new")
        && (Less(feed[b].created, feed[a].created) || (feed[a].created == feed[b].created && Less(b, a))))
  }

  lemma LeadsIsAhead(feed: Feed, a: Id, b: Id)
    requires a in feed && b in feed
    ensures Leads(feed, a, b) <==> Ahead(a, feed[a], b, feed[b])
  {
    LessTotal(feed[a].created, feed[b].created);
  }

  /** Which row a complete item meets: the eligible card that leads all others. */
  lemma PickedLeads(feed: Feed, item: Item, id: Id)
    ensures Pick(feed, item.thread, IsNew(item)) == Some(id) <==>
      Eligible(feed, id, item) && forall b :: b != id && Eligible(feed, b, item) ==> Leads(feed, id, b)
    ensures Pick(feed, item.thread, IsNew(item)) == None <==> forall b :: !Eligible(feed, b, item)
  {
    var some := Candidates(feed, item.thread, IsNew(item));
    forall b ensures b in some <==> Eligible(feed, b, item) {}
    forall b | id in feed && b in feed ensures Leads(feed, id, b) <==> Ahead(id, feed[id], b, feed[b]) { LeadsIsAhead(feed, id, b); }
    if Eligible(feed, id, item) && forall b :: b != id && Eligible(feed, b, item) ==> Leads(feed, id, b) {
      assert First(feed, some, id);
      FirstIsOne(feed, some, id, Pick(feed, item.thread, IsNew(item)).value);
    }
  }

  /** No eligible card: a complete item with a free id and a lawful status becomes a card as it is,
      and any other is refused. */
  lemma UpsertInserts(parse: Parser, feed: Feed, item: Item)
    requires forall b :: !Eligible(feed, b, item)
    ensures Upserted(parse, feed, item) ==
      if item.id != "" && item.thread != "" && item.action != "" && item.id !in feed
         && (item.status == "" || item.status == "new" || item.status == "acted" || item.status == "dismissed"
             || item.status == "snoozed" || item.status == "deferred")
      then (feed[item.id := Card(item.thread, if item.status == "" then "new" else item.status, item.created, item.ts,
                                 item.content, item.linked, item.snooze, item.acted, "")], Written(item.id, true))
      else (feed, Refused)
  {
    PickedLeads(feed, item, item.id);
  }

  /** The eligible card that leads the others takes the item's content, time stamp and linked task; a
      new item also opens it, clears what the operator had set on it, and moves its creation if the
      item has one. The exception: a dismissed card whose time stamp is no earlier than the item's,
      both numeric, stays as it is. */
  lemma UpsertCoalesces(parse: Parser, feed: Feed, item: Item, id: Id)
    requires item.id != "" && item.thread != "" && item.action != ""
    requires Eligible(feed, id, item) && forall b :: b != id && Eligible(feed, b, item) ==> Leads(feed, id, b)
    ensures var card := feed[id];
      Upserted(parse, feed, item) ==
        if NewItem(item) && card.status == "dismissed"
           && parse(item.ts).Some? && parse(card.ts).Some? && parse(item.ts).value <= parse(card.ts).value
        then (feed, Written(id, false))
        else if NewItem(item) then
          (feed[id := Card(card.thread, "new", if item.created == "" then card.created else item.created, item.ts,
                           item.content, item.linked, "", "", "")], Written(id, true))
        else
          (feed[id := Card(card.thread, card.status, card.created, item.ts, item.content, item.linked,
                           card.snooze, card.acted, card.retriaging)], Written(id, false))
  {
    PickedLeads(feed, item, id);
  }

  /** Resolving a thread: its open cards become acted with the given time, and everything else
      stays. */
  lemma ResolvedColumns(feed: Feed, thread: string, at: string, id: Id)
    ensures Resolved(feed, thread, at).Keys == feed.Keys
    ensures id in feed ==>
      Resolved(feed, thread, at)[id] ==
        if thread != "" && feed[id].thread == thread && feed[id].status == "new"
        then feed[id].(status := "acted", acted := at) else feed[id]
  {
  }

  /** Setting a status writes exactly the status and the time, of an existing card, when the status
      is lawful; acting on a card also links the task. */
  lemma StatusColumns(feed: Feed, id: Id, status: string, linked: string, at: string)
    ensures StatusSet(feed, id, status, at) ==
      if id in feed && (status == "new" || status == "acted" || status == "dismissed" || status == "snoozed" || status == "deferred")
      then feed[id := feed[id].(status := status, acted := at)] else feed
    ensures ActedSet(feed, id, linked, at) ==
      if id in feed then feed[id := feed[id].(status := "acted", acted := at, linked := linked)] else feed
  {
  }

  // ----- at most one open card per thread -----

  ghost predicate OneOpen(feed: Feed) {
    forall a, b :: a in feed && b in feed && Open(feed[a]) && Open(feed[b]) && feed[a].thread == feed[b].thread ==> a == b
  }

  lemma UpsertKeepsOneOpen(parse: Parser, feed: Feed, item: Item)
    requires OneOpen(feed)
    ensures OneOpen(Upserted(parse, feed, item).0)
  {
    var (after, outcome) := Upserted(parse, feed, item);
    if outcome.Written? && Open(after[outcome.id]) {
      forall b | b in after && b != outcome.id && Open(after[b]) ensures after[b].thread != item.thread {
        if after[b].thread == item.thread { OpenIsPicked(feed, item.thread, IsNew(item), b); }
      }
    }
  }

  /** Setting a status keeps the invariant exactly when it does not open a second card. */
  lemma SetStatusKeepsExactly(feed: Feed, id: Id, status: string, at: string)
    requires OneOpen(feed)
    ensures OneOpen(StatusSet(feed, id, status, at)) <==>
      !(status == "new" && id in feed && exists b :: b in feed && b != id && feed[b].thread == feed[id].thread && Open(feed[b]))
  {
    var after := StatusSet(feed, id, status, at);
    if status == "new" && id in feed {
      assert Lawful("new");
      if b :| b in feed && b != id && feed[b].thread == feed[id].thread && Open(feed[b]) {
        assert Open(after[b]) && Open(after[id]);
      }
    }
  }

  datatype Command =
    | Upsert(item: Item)
    | Resolve(thread: string)
    | SetStatus(id: Id, status: string)
    | SetActed(id: Id, linked: string)

  datatype Timed = Timed(command: Command, at: string)

  ghost function Apply(parse: Parser, feed: Feed, t: Timed): Feed {
    match t.command
    case Upsert(item) => Upserted(parse, feed, item).0
    case Resolve(thread) => Resolved(feed, thread, t.at)
    case SetStatus(id, status) => StatusSet(feed, id, status, t.at)
    case SetActed(id, linked) => ActedSet(feed, id, linked, t.at)
  }

  ghost function Run(parse: Parser, feed: Feed, commands: seq<Timed>): Feed
    decreases |commands|
  {
    if commands == [] then feed else Run(parse, Apply(parse, feed, commands[0]), commands[1..])
  }

  /** Over every run in which no status is set to 'new', each thread has at most one open card. */
  lemma {:induction false} RunsKeepOneOpen(parse: Parser, feed: Feed, commands: seq<Timed>)
    requires OneOpen(feed)
    requires forall t :: t in commands ==> !(t.command.SetStatus? && t.command.status == "new")
    ensures OneOpen(Run(parse, feed, commands))
    decreases |commands|
  {
    if commands != [] {
      var t := commands[0];
      match t.command {
        case Upsert(item) => UpsertKeepsOneOpen(parse, feed, item);
        case Resolve(_) =>
        case SetStatus(id, status) => SetStatusKeepsExactly(feed, id, status, t.at);
        case SetActed(_, _) => assert |"acted"| != |"new"|;
      }
      RunsKeepOneOpen(parse, Apply(parse, feed, t), commands[1..]);
    }
  }

  // ----- dismissal is respected -----

  /** The thread has no open card, and its foremost dismissed one has this numeric time stamp. */
  ghost predicate Cleared(parse: Parser, feed: Feed, thread: string, ts: real) {
    var found := Pick(feed, thread, true);
    && (forall b :: b in feed && feed[b].thread == thread ==> !Open(feed[b]))
    && found.Some? && parse(feed[found.value].ts) == Some(ts)
  }

  /** New messages on the thread that are no later than the dismissed one. */
  ghost predicate Replay(parse: Parser, t: Timed, thread: string, ts: real) {
    t.command.Upsert? && (t.command.item.thread == thread ==>
      && IsNew(t.command.item)
      && parse(t.command.item.ts).Some? && parse(t.command.item.ts).value <= ts)
  }

  lemma ReplayChangesNothing(parse: Parser, feed: Feed, t: Timed, thread: string, ts: real)
    requires Cleared(parse, feed, thread, ts) && Replay(parse, t, thread, ts)
    ensures Cleared(parse, Apply(parse, feed, t), thread, ts)
    ensures SameThread(Apply(parse, feed, t), feed, thread)
  {
    var item := t.command.item;
    if item.thread != thread {
      OtherThread(parse, feed, item, thread);
      SamePick(Apply(parse, feed, t), feed, thread, true);
    }
  }

  ghost predicate SameThread(a: Feed, b: Feed, thread: string) {
    && (forall id :: (id in a && a[id].thread == thread) <==> (id in b && b[id].thread == thread))
    && (forall id :: id in a && id in b && a[id].thread == thread ==> a[id] == b[id])
  }

  lemma OtherThread(parse: Parser, feed: Feed, item: Item, thread: string)
    requires item.thread != thread
    ensures SameThread(Upserted(parse, feed, item).0, feed, thread)
  {
  }

  lemma SamePick(a: Feed, b: Feed, thread: string, forNew: bool)
    requires SameThread(a, b, thread)
    ensures Pick(a, thread, forNew) == Pick(b, thread, forNew)
  {
    var some := Candidates(a, thread, forNew);
    assert forall id :: Candidate(a, id, thread, forNew) <==> Candidate(b, id, thread, forNew);
    assert some == Candidates(b, thread, forNew);
    if some != {} {
      var x, y := Pick(a, thread, forNew).value, Pick(b, thread, forNew).value;
      assert First(b, some, x);
      FirstIsOne(b, some, x, y);
    }
  }

  /** Replaying messages no later than the dismissed card, amid any traffic on other threads,
      leaves every card of the thread as it is and adds none. */
  lemma {:induction false} DismissalHolds(parse: Parser, feed: Feed, commands: seq<Timed>, thread: string, ts: real)
    requires Cleared(parse, feed, thread, ts)
    requires forall t :: t in commands ==> Replay(parse, t, thread, ts)
    ensures SameThread(Run(parse, feed, commands), feed, thread)
    decreases |commands|
  {
    if commands != [] {
      ReplayChangesNothing(parse, feed, commands[0], thread, ts);
      DismissalHolds(parse, Apply(parse, feed, commands[0]), commands[1..], thread, ts);
    }
  }

  /** Against every message ever seen the promise fails: an older message coalesced onto the open
      card takes its time stamp back, and after the dismissal a message older than one already
      seen brings the card back. */
  lemma OlderMessageReopens(parse: Parser, first: Item, second: Item, third: Item, at: string)
    requires Complete(first) && Complete(second) && Complete(third)
    requires IsNew(first) && IsNew(second) && IsNew(third)
    requires first.thread == second.thread == third.thread
    requires parse(first.ts) == Some(3.0) && parse(second.ts) == Some(1.0) && parse(third.ts) == Some(2.0)
    ensures var after := Run(parse, map[], [Timed(Upsert(first), at), Timed(Upsert(second), at),
                                            Timed(SetStatus(first.id, "dismissed"), at), Timed(Upsert(third), at)]);
      first.id in after && Open(after[first.id]) && parse(third.ts).value < parse(first.ts).value
  {
    var f1 := Upserted(parse, map[], first).0;
    FirstCard(parse, first);
    SecondCoalesces(parse, first, second);
    var f2 := Upserted(parse, f1, second).0;
    var f3 := StatusSet(f2, first.id, "dismissed", at);
    assert Lawful("dismissed");
    var card := f2[first.id].(status := "dismissed", acted := at);
    assert f3 == map[first.id := card];
    ThirdReopens(parse, first.id, card, third);
    FourSteps(parse, map[], Timed(Upsert(first), at), Timed(Upsert(second), at),
              Timed(SetStatus(first.id, "dismissed"), at), Timed(Upsert(third), at));
  }

  lemma SecondCoalesces(parse: Parser, first: Item, second: Item)
    requires Complete(second) && IsNew(first) && IsNew(second) && first.thread == second.thread
    ensures Upserted(parse, map[first.id := Inserted(first)], second).0 == map[first.id := Coalesced(Inserted(first), second)]
  {
    OpenIsNotDismissed(Inserted(first));
    OnlyPick(map[first.id := Inserted(first)], first.id, first.thread, true);
  }

  lemma ThirdReopens(parse: Parser, id: Id, card: Card, item: Item)
    requires Complete(item) && IsNew(item) && item.thread == card.thread && Dismissed(card)
    requires !SameOrOlder(parse, item.ts, card.ts)
    ensures var after := Upserted(parse, map[id := card], item).0; id in after && Open(after[id])
  {
    OnlyPick(map[id := card], id, card.thread, true);
  }

  lemma FirstCard(parse: Parser, item: Item)
    requires Complete(item) && IsNew(item)
    ensures Upserted(parse, map[], item).0 == map[item.id := Inserted(item)] && Open(Inserted(item))
  {
    assert Lawful("new");
    assert Candidates(map[], item.thread, IsNew(item)) == {};
  }

  lemma OnlyPick(feed: Feed, id: Id, thread: string, forNew: bool)
    requires feed.Keys == {id} && Candidate(feed, id, thread, forNew)
    ensures Pick(feed, thread, forNew) == Some(id)
  {
    assert id in Candidates(feed, thread, forNew);
  }

  lemma FourSteps(parse: Parser, feed: Feed, a: Timed, b: Timed, c: Timed, d: Timed)
    ensures Run(parse, feed, [a, b, c, d]) == Apply(parse, Apply(parse, Apply(parse, Apply(parse, feed, a), b), c), d)
  {
    RunFirst(parse, feed, a, [b, c, d]);
    RunFirst(parse, Apply(parse, feed, a), b, [c, d]);
    RunFirst(parse, Apply(parse, Apply(parse, feed, a), b), c, [d]);
    RunFirst(parse, Apply(parse, Apply(parse, Apply(parse, feed, a), b), c), d, []);
    assert [a, b, c, d] == [a] + [b, c, d] && [b, c, d] == [b] + [c, d] && [c, d] == [c] + [d] && [d] == [d] + [];
  }

  lemma RunFirst(parse: Parser, feed: Feed, t: Timed, rest: seq<Timed>)
    ensures Run(parse, feed, [t] + rest) == Run(parse, Apply(parse, feed, t), rest)
  {
    assert ([t] + rest)[1..] == rest;
  }

  /** Resolving closes the open cards of the thread and nothing else. */
  lemma ResolveExactly(feed: Feed, thread: string, at: string, id: Id)
    requires id in feed && thread != ""
    ensures Open(Resolved(feed, thread, at)[id]) <==> Open(feed[id]) && feed[id].thread != thread
    ensures Resolved(feed, thread, at)[id] != feed[id] ==> Open(feed[id]) && feed[id].thread == thread
    ensures Resolved(feed, thread, at)[id].thread == feed[id].thread
  {
    assert |"acted"| != |"new"|;
  }

  // ----- the table -----

  class FeedTable {
    var feed: Feed

    method UpsertFeedItemSurfaced(item: Item, parse: Parser) returns (outcome: Outcome)
      modifies this
      ensures feed == Upserted(parse, old(feed), item).0
      ensures outcome == Upserted(parse, old(feed), item).1
    {
      if item.id == "" || item.thread == "" || item.action == "" { return Refused; }
      var found := Lookup(item.thread, IsNew(item));
      if found.Some? {
        var id := found.value;
        var card := feed[id];
        if IsNew(item) && Dismissed(card) && SameOrOlder(parse, item.ts, card.ts) {
          return Written(id, false);
        }
        card := card.(content := item.content, ts := item.ts, linked := item.linked);
        if IsNew(item) {
          card := card.(status := "new", snooze := "", acted := "", retriaging := "");
          if item.created != "" { card := card.(created := item.created); }
        }
        feed := feed[id := card];
        return Written(id, IsNew(item));
      }
      var card := Inserted(item);
      if item.id in feed || !Lawful(card.status) { return Refused; }
      feed := feed[item.id := card];
      return Written(item.id, true);
    }

    /** The coalescing query: ORDER BY and LIMIT 1. */
    method Lookup(thread: string, forNew: bool) returns (found: Option<Id>)
      ensures found == Pick(feed, thread, forNew)
    {
      var some := Candidates(feed, thread, forNew);
      if some == {} { return None; }
      HasFirst(feed, some);
      var id :| id in some && First(feed, some, id);
      FirstIsOne(feed, some, id, Pick(feed, thread, forNew).value);
      return Some(id);
    }

    method ResolveOpenFeedItemsByThread(thread: string, at: string) returns (resolved: nat)
      modifies this
      ensures feed == Resolved(old(feed), thread, at)
      ensures resolved == if thread == "" then 0 else |Candidates(old(feed), thread, false)|
    {
      if thread == "" { return 0; }
      resolved := |Candidates(feed, thread, false)|;
      feed := map id | id in feed ::
        if feed[id].thread == thread && Open(feed[id]) then feed[id].(status := "acted", acted := at) else feed[id];
    }

    method SetFeedItemStatus(id: Id, status: string, at: string) returns (ok: bool)
      modifies this
      ensures feed == StatusSet(old(feed), id, status, at)
      ensures ok <==> id in old(feed) && Lawful(status)
    {
      ok := id in feed && Lawful(status);
      if ok { feed := feed[id := feed[id].(status := status, acted := at)]; }
    }

    method SetFeedItemActed(id: Id, linked: string, at: string) returns (ok: bool)
      modifies this
      ensures feed == ActedSet(old(feed), id, linked, at)
      ensures ok <==> id in old(feed)
    {
      ok := id in feed;
      if ok { feed := feed[id := feed[id].(status := "acted", acted := at, linked := linked)]; }
    }
  }
}
