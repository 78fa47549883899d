/** The hook settings files: merging a command into the settings tree, upgrading it in place,
    and taking it out again. */
module HookConfig {
  import opened Text
  import opened Lists
  import HookCommands

  /** A parsed settings file. */
  datatype Json =
    | Null
    | Bool(flag: bool)
    | Number(digits: string)
    | Str(text: string)
    | Arr(items: seq<Json>)
    | Obj(fields: Fields)

  type Fields = map<string, Json>

  const HOOKS := "hooks"

  /** A checked type assertion whose failure is ignored: the zero value. */
  function TextAt(fields: Fields, key: string): string {
    if key in fields && fields[key].Str? then fields[key].text else ""
  }

  function ListAt(fields: Fields, key: string): seq<Json> {
    if key in fields && fields[key].Arr? then fields[key].items else []
  }

  function HooksOf(config: Fields): Fields {
    if HOOKS in config && config[HOOKS].Obj? then config[HOOKS].fields else map[]
  }

  function GroupsOf(config: Fields, event: string): seq<Json> {
    ListAt(HooksOf(config), event)
  }

  function CommandOf(hook: Json): string {
    if hook.Obj? then TextAt(hook.fields, "command") else ""
  }

  function MatcherOf(group: Fields): string {
    Trim(TextAt(group, "matcher"))
  }

  predicate IsCopy(hook: Json, command: string) {
    hook.Obj? && CommandOf(hook) == command
  }

  function CopyOf(command: string): Json -> bool {
    hook => IsCopy(hook, command)
  }

  /** What a pass over the groups of an event clears out: every other managed command and the
      command under other matchers, or every copy of a command, white space around it aside. */
  datatype Rule =
    | Upgrade(desired: string, command: string, managed: string -> bool)
    | Removal(command: string)

  function ManagedWith(command: string): string -> bool {
    existing => HookCommands.SameManagedAgentHookCommand(existing, command)
  }

  function Upgrading(desired: string, command: string): Rule {
    Upgrade(desired, command, ManagedWith(command))
  }

  predicate Keeps(rule: Rule, group: Fields, hook: Json) {
    !hook.Obj? ||
    match rule
    case Upgrade(desired, command, managed) =>
      if CommandOf(hook) == command then MatcherOf(group) == desired else !managed(CommandOf(hook))
    case Removal(command) => Trim(CommandOf(hook)) != command
  }

  function KeptHere(rule: Rule, group: Fields): Json -> bool {
    hook => Keeps(rule, group, hook)
  }

  /** A group after the pass; a group left without hooks goes. */
  function Kept(rule: Rule, entry: Json): Option<Json> {
    if !entry.Obj? then Some(entry)
    else
      var hooks := Filter(KeptHere(rule, entry.fields), ListAt(entry.fields, HOOKS));
      if hooks == [] then None else Some(Obj(entry.fields[HOOKS := Arr(hooks)]))
  }

  function KeptBy(rule: Rule): Json -> Option<Json> {
    entry => Kept(rule, entry)
  }

  function KeptGroups(rule: Rule, entries: seq<Json>): (r: seq<Json>)
    ensures |r| <= |entries|
  {
    Present(KeptBy(rule), entries)
  }

  predicate NotEmpty(entry: Json) {
    entry.Obj? ==> ListAt(entry.fields, HOOKS) != []
  }

  /** A group that holds hooks, all of them to be kept. */
  predicate Settled(rule: Rule, entry: Json) {
    entry.Obj? ==> ListAt(entry.fields, HOOKS) != [] && All(KeptHere(rule, entry.fields), ListAt(entry.fields, HOOKS))
  }

  function SettledBy(rule: Rule): Json -> bool {
    entry => Settled(rule, entry)
  }

  predicate AllSettled(rule: Rule, entries: seq<Json>) {
    All(SettledBy(rule), entries)
  }

  // ----- what a pass does -----

  lemma RewriteIsSame(group: Fields, kept: seq<Json>)
    ensures kept != [] ==> (group[HOOKS := Arr(kept)] == group <==> ListAt(group, HOOKS) == kept)
  {
    assert group[HOOKS := Arr(kept)][HOOKS] == Arr(kept);
  }

  lemma SettledIsKept(rule: Rule, entry: Json)
    ensures Settled(rule, entry) <==> Kept(rule, entry) == Some(entry)
  {
    if entry.Obj? {
      var hooks := ListAt(entry.fields, HOOKS);
      FilterAllExactly(KeptHere(rule, entry.fields), hooks);
      RewriteIsSame(entry.fields, Filter(KeptHere(rule, entry.fields), hooks));
    }
  }

  lemma OtherText(group: Fields, key: string, other: string, value: Json)
    requires |key| != |other|
    ensures TextAt(group[other := value], key) == TextAt(group, key)
  {
  }

  lemma SameMatcher(group: Fields, hooks: seq<Json>)
    ensures MatcherOf(group[HOOKS := Arr(hooks)]) == MatcherOf(group)
  {
    OtherText(group, "matcher", HOOKS, Arr(hooks));
  }

  lemma KeptIsSettled(rule: Rule, entry: Json)
    requires Kept(rule, entry).Some?
    ensures Settled(rule, Kept(rule, entry).value)
  {
    if entry.Obj? {
      var hooks := ListAt(entry.fields, HOOKS);
      var kept := Filter(KeptHere(rule, entry.fields), hooks);
      SameMatcher(entry.fields, kept);
      FilterAll(KeptHere(rule, entry.fields), KeptHere(rule, entry.fields[HOOKS := Arr(kept)]), hooks);
    }
  }

  lemma PassSettles(rule: Rule, entries: seq<Json>)
    ensures AllSettled(rule, KeptGroups(rule, entries))
  {
    forall e | KeptBy(rule)(e).Some? ensures SettledBy(rule)(KeptBy(rule)(e).value) {
      KeptIsSettled(rule, e);
    }
    PresentAll(KeptBy(rule), SettledBy(rule), entries);
  }

  /** A pass changes nothing exactly when there is nothing to clear out. */
  lemma PassIsIdleExactly(rule: Rule, entries: seq<Json>)
    ensures KeptGroups(rule, entries) == entries <==> AllSettled(rule, entries)
  {
    forall e | e in entries ensures SettledBy(rule)(e) == (KeptBy(rule)(e) == Some(e)) {
      SettledIsKept(rule, e);
    }
    PresentAllExactly(KeptBy(rule), SettledBy(rule), entries);
  }

  // ----- foreign hooks -----

  /** Not an object, or neither the command itself nor one the rule is after: to be kept
      wherever it stands. */
  predicate Spared(rule: Rule, hook: Json) {
    !hook.Obj? ||
    match rule
    case Upgrade(_, command, managed) => CommandOf(hook) != command && !managed(CommandOf(hook))
    case Removal(command) => Trim(CommandOf(hook)) != command
  }

  function SparedWith(rule: Rule, rest: Fields): Json -> seq<(Fields, Json)> {
    hook => if Spared(rule, hook) then [(rest, hook)] else []
  }

  /** The foreign hooks of an entry, each with the rest of its group. */
  function ForeignIn(rule: Rule, entry: Json): seq<(Fields, Json)> {
    if !entry.Obj? then [(map[], entry)]
    else Gather(SparedWith(rule, entry.fields - {HOOKS}), ListAt(entry.fields, HOOKS))
  }

  function ForeignBy(rule: Rule): Json -> seq<(Fields, Json)> {
    entry => ForeignIn(rule, entry)
  }

  function Foreign(rule: Rule, entries: seq<Json>): seq<(Fields, Json)> {
    Gather(ForeignBy(rule), entries)
  }

  lemma GroupForeign(rule: Rule, entry: Json)
    ensures (if Kept(rule, entry).Some? then ForeignIn(rule, Kept(rule, entry).value) else []) == ForeignIn(rule, entry)
  {
    if entry.Obj? {
      var rest, hooks := entry.fields - {HOOKS}, ListAt(entry.fields, HOOKS);
      var kept := Filter(KeptHere(rule, entry.fields), hooks);
      GatherFiltered(SparedWith(rule, rest), KeptHere(rule, entry.fields), hooks);
      assert entry.fields[HOOKS := Arr(kept)] - {HOOKS} == rest;
    }
  }

  /** A pass keeps every foreign hook, in order and in its group. */
  lemma PassKeepsForeign(rule: Rule, entries: seq<Json>)
    ensures Foreign(rule, KeptGroups(rule, entries)) == Foreign(rule, entries)
  {
    forall e
      ensures (if KeptBy(rule)(e).Some? then ForeignBy(rule)(KeptBy(rule)(e).value) else []) == ForeignBy(rule)(e)
    {
      GroupForeign(rule, e);
    }
    GatherPresent(ForeignBy(rule), KeptBy(rule), entries);
  }

  // ----- writing the tree -----

  function WithGroups(config: Fields, event: string, groups: seq<Json>): Fields {
    config[HOOKS := Obj(HooksOf(config)[event := Arr(groups)])]
  }

  lemma GroupsWritten(config: Fields, event: string, groups: seq<Json>)
    ensures GroupsOf(WithGroups(config, event, groups), event) == groups
    ensures groups != GroupsOf(config, event) ==> WithGroups(config, event, groups) != config
  {
  }

  /** The two trees agree outside one event. */
  ghost predicate SameElsewhere(a: Fields, b: Fields, event: string) {
    && (forall k :: k != HOOKS ==> (k in a <==> k in b))
    && (forall k :: k != HOOKS && k in a && k in b ==> a[k] == b[k])
    && (forall e :: e != event ==> (e in HooksOf(a) <==> e in HooksOf(b)))
    && (forall e :: e != event && e in HooksOf(a) && e in HooksOf(b) ==> HooksOf(a)[e] == HooksOf(b)[e])
  }

  lemma WritingElsewhere(config: Fields, event: string, groups: seq<Json>)
    ensures SameElsewhere(config, WithGroups(config, event, groups), event)
  {
  }

  function NewHook(command: string, extras: Fields): Json {
    Obj(map["type" := Str("command"), "command" := Str(command)] + extras)
  }

  function NewGroup(hook: Json, matcher: Option<string>): Json {
    var group: Fields := map[HOOKS := Arr([hook])];
    Obj(if matcher.Some? then group["matcher" := Str(matcher.value)] else group)
  }

  lemma NewGroupFacts(hook: Json, matcher: string)
    ensures ListAt(NewGroup(hook, None).fields, HOOKS) == [hook] && TextAt(NewGroup(hook, None).fields, "matcher") == ""
    ensures ListAt(NewGroup(hook, Some(matcher)).fields, HOOKS) == [hook]
    ensures TextAt(NewGroup(hook, Some(matcher)).fields, "matcher") == matcher
  {
    assert |HOOKS| == 5 && |"matcher"| == 7;
  }

  lemma NewHookCommand(command: string)
    ensures CommandOf(NewHook(command, map[])) == command
  {
  }

  // ----- installing a provider's hook -----

  /** The group holds the command under the (trimmed) matcher. */
  predicate Holds(entry: Json, desired: string, command: string) {
    entry.Obj? && MatcherOf(entry.fields) == desired && Any(CopyOf(command), ListAt(entry.fields, HOOKS))
  }

  function HoldsBy(desired: string, command: string): Json -> bool {
    entry => Holds(entry, desired, command)
  }

  predicate Has(entries: seq<Json>, desired: string, command: string) {
    Any(HoldsBy(desired, command), entries)
  }

  /** The groups hold the command under its matcher and nothing to clear out: no copy under
      another matcher, no other command of the provider, no empty group. */
  predicate Tidy(entries: seq<Json>, desired: string, command: string) {
    Has(entries, desired, command) && AllSettled(Upgrading(desired, command), entries)
  }

  predicate InPlace(config: Fields, event: string, matcher: string, command: string) {
    Tidy(GroupsOf(config, event), Trim(matcher), command)
  }

  function GroupToAdd(matcher: string, command: string, extras: Fields): Json {
    NewGroup(NewHook(command, extras), if Trim(matcher) == "" then None else Some(matcher))
  }

  /** What the installer makes of the groups under its event. */
  function Installed(entries: seq<Json>, desired: string, command: string, added: Json): seq<Json> {
    var kept := KeptGroups(Upgrading(desired, command), entries);
    if Has(entries, desired, command) then kept else kept + [added]
  }

  /** The settings tree after installing a hook. */
  function Install(config: Fields, event: string, matcher: string, command: string, extras: Fields): Fields {
    if InPlace(config, event, matcher, command) then config
    else
      WithGroups(config, event,
        Installed(GroupsOf(config, event), Trim(matcher), command, GroupToAdd(matcher, command, extras)))
  }

  lemma InstallGroups(config: Fields, event: string, matcher: string, command: string, extras: Fields)
    ensures GroupsOf(Install(config, event, matcher, command, extras), event) ==
      Installed(GroupsOf(config, event), Trim(matcher), command, GroupToAdd(matcher, command, extras))
  {
    var entries, added := GroupsOf(config, event), GroupToAdd(matcher, command, extras);
    if InPlace(config, event, matcher, command) {
      PassIsIdleExactly(Upgrading(Trim(matcher), command), entries);
    } else {
      GroupsWritten(config, event, Installed(entries, Trim(matcher), command, added));
    }
  }

  lemma HeldExactly(entry: Json, desired: string, command: string)
    ensures var k := Kept(Upgrading(desired, command), entry);
      (k.Some? && Holds(k.value, desired, command)) <==> Holds(entry, desired, command)
  {
    HeldByAny(entry, Upgrading(desired, command));
  }

  lemma HeldByAny(entry: Json, rule: Rule)
    requires rule.Upgrade?
    ensures var k := Kept(rule, entry);
      (k.Some? && Holds(k.value, rule.desired, rule.command)) <==> Holds(entry, rule.desired, rule.command)
  {
    if entry.Obj? {
      var hooks := ListAt(entry.fields, HOOKS);
      var kept := Filter(KeptHere(rule, entry.fields), hooks);
      SameMatcher(entry.fields, kept);
      if MatcherOf(entry.fields) == rule.desired {
        FilterAny(KeptHere(rule, entry.fields), CopyOf(rule.command), hooks);
      }
    }
  }

  lemma PassKeepsDesired(entries: seq<Json>, desired: string, command: string)
    ensures Has(KeptGroups(Upgrading(desired, command), entries), desired, command) <==> Has(entries, desired, command)
  {
    var f, p := KeptBy(Upgrading(desired, command)), HoldsBy(desired, command);
    forall e ensures (f(e).Some? && p(f(e).value)) <==> p(e) { HeldExactly(e, desired, command); }
    PresentAny(f, p, entries);
  }

  lemma GroupToAddFacts(matcher: string, command: string, extras: Fields)
    ensures var g, h := GroupToAdd(matcher, command, extras), NewHook(command, extras);
      g.Obj? && ListAt(g.fields, HOOKS) == [h] && MatcherOf(g.fields) == Trim(matcher)
  {
    NewGroupFacts(NewHook(command, extras), matcher);
    TrimFixesTrimmed("");
  }

  lemma OneHookGroup(g: Json, h: Json, rule: Rule)
    requires rule.Upgrade? && g.Obj? && h.Obj? && ListAt(g.fields, HOOKS) == [h] && MatcherOf(g.fields) == rule.desired
    ensures Holds(g, rule.desired, rule.command) <==> CommandOf(h) == rule.command
    ensures CommandOf(h) == rule.command ==> Settled(rule, g) && ForeignIn(rule, g) == []
  {
    assert [h] == [] + [h];
    AnyNext(CopyOf(rule.command), [], h);
    AllNext(KeptHere(rule, g.fields), [], h);
    GatherNext(SparedWith(rule, g.fields - {HOOKS}), [], h);
  }

  lemma InstalledTidyExactly(entries: seq<Json>, desired: string, command: string, g: Json, h: Json)
    requires g.Obj? && h.Obj? && ListAt(g.fields, HOOKS) == [h] && MatcherOf(g.fields) == desired
    ensures Tidy(Installed(entries, desired, command, g), desired, command)
      <==> (Has(entries, desired, command) || CommandOf(h) == command)
  {
    var rule := Upgrading(desired, command);
    var kept := KeptGroups(rule, entries);
    PassSettles(rule, entries);
    PassKeepsDesired(entries, desired, command);
    OneHookGroup(g, h, rule);
    AnyNext(HoldsBy(desired, command), kept, g);
    AllNext(SettledBy(rule), kept, g);
  }

  /** A second call finds nothing to do, unless the extra fields overwrite the command of a
      hook that had to be added. */
  lemma InstallSettlesExactly(config: Fields, event: string, matcher: string, command: string, extras: Fields)
    ensures InPlace(Install(config, event, matcher, command, extras), event, matcher, command)
      <==> (Has(GroupsOf(config, event), Trim(matcher), command) || CommandOf(NewHook(command, extras)) == command)
  {
    InstallGroups(config, event, matcher, command, extras);
    GroupToAddFacts(matcher, command, extras);
    InstalledTidyExactly(GroupsOf(config, event), Trim(matcher), command,
                         GroupToAdd(matcher, command, extras), NewHook(command, extras));
  }

  /** The installer changes the file exactly when the command is not in place yet. */
  lemma InstallIdleExactly(config: Fields, event: string, matcher: string, command: string, extras: Fields)
    requires CommandOf(NewHook(command, extras)) == command
    ensures Install(config, event, matcher, command, extras) == config <==> InPlace(config, event, matcher, command)
  {
    InstallSettlesExactly(config, event, matcher, command, extras);
  }

  lemma InstalledForeign(entries: seq<Json>, desired: string, command: string, g: Json, h: Json)
    requires g.Obj? && h.Obj? && ListAt(g.fields, HOOKS) == [h] && MatcherOf(g.fields) == desired
    requires CommandOf(h) == command
    ensures var rule := Upgrading(desired, command);
      Foreign(rule, Installed(entries, desired, command, g)) == Foreign(rule, entries)
  {
    var rule := Upgrading(desired, command);
    PassKeepsForeign(rule, entries);
    OneHookGroup(g, h, rule);
    GatherNext(ForeignBy(rule), KeptGroups(rule, entries), g);
  }

  /** The foreign hooks under the event stay, in order and in their groups. */
  lemma InstallKeepsForeign(config: Fields, event: string, matcher: string, command: string, extras: Fields)
    requires CommandOf(NewHook(command, extras)) == command
    ensures var rule := Upgrading(Trim(matcher), command);
      Foreign(rule, GroupsOf(Install(config, event, matcher, command, extras), event)) == Foreign(rule, GroupsOf(config, event))
  {
    InstallGroups(config, event, matcher, command, extras);
    GroupToAddFacts(matcher, command, extras);
    InstalledForeign(GroupsOf(config, event), Trim(matcher), command,
                     GroupToAdd(matcher, command, extras), NewHook(command, extras));
  }

  /** Every other event and every other key of the file is untouched. */
  lemma InstallElsewhere(config: Fields, event: string, matcher: string, command: string, extras: Fields)
    ensures SameElsewhere(config, Install(config, event, matcher, command, extras), event)
  {
    if !InPlace(config, event, matcher, command) {
      WritingElsewhere(config, event,
        Installed(GroupsOf(config, event), Trim(matcher), command, GroupToAdd(matcher, command, extras)));
    }
  }

  lemma SettledHook(rule: Rule, entries: seq<Json>, entry: Json, hook: Json)
    requires AllSettled(rule, entries) && entry in entries && entry.Obj? && hook in ListAt(entry.fields, HOOKS)
    ensures Keeps(rule, entry.fields, hook)
  {
    AllMeans(SettledBy(rule), entries);
    assert SettledBy(rule)(entry);
    AllMeans(KeptHere(rule, entry.fields), ListAt(entry.fields, HOOKS));
    assert KeptHere(rule, entry.fields)(hook);
  }

  /** Once an installed command is in place, every command of its provider under the event,
      whatever its version, URL and form, is that command under that matcher; commands of
      other providers are foreign. */
  lemma InPlaceIsAlone(config: Fields, event: string, matcher: string,
                       owned: bool, p: string, n: nat, url: string,
                       entry: Json, hook: Json, owned': bool, p': string, n': nat, url': string)
    requires HookCommands.ProviderName(p) && HookCommands.ProviderName(p')
    requires n <= HookCommands.MAX_INT64 && n' <= HookCommands.MAX_INT64
    requires InPlace(config, event, matcher, HookCommands.Installed(owned, p, n, url))
    requires entry in GroupsOf(config, event) && entry.Obj? && hook in ListAt(entry.fields, HOOKS) && hook.Obj?
    requires CommandOf(hook) == HookCommands.Installed(owned', p', n', url')
    ensures p' == p ==>
      CommandOf(hook) == HookCommands.Installed(owned, p, n, url) && MatcherOf(entry.fields) == Trim(matcher)
    ensures p' != p ==> Spared(Upgrading(Trim(matcher), HookCommands.Installed(owned, p, n, url)), hook)
  {
    HookCommands.SameManagedExactly(owned', p', n', url', owned, p, n, url);
    HookCommands.SameManagedExactly(owned, p, n, url, owned, p, n, url);
    SettledHook(Upgrading(Trim(matcher), HookCommands.Installed(owned, p, n, url)), GroupsOf(config, event), entry, hook);
  }

  // ----- installing all hooks of a provider -----

  datatype Spec = Spec(event: string, matcher: string)

  predicate Done(config: Fields, spec: Spec, command: string) {
    InPlace(config, spec.event, spec.matcher, command)
  }

  function DoneIn(config: Fields, command: string): Spec -> bool {
    s => Done(config, s, command)
  }

  function InstallSpec(config: Fields, spec: Spec, command: string, extras: Fields): Fields {
    Install(config, spec.event, spec.matcher, command, extras)
  }

  /** Whether installing one hook writes the file, and the file after it. */
  function InstallStep(command: string, extras: Fields): (Fields, Spec) -> (bool, Fields) {
    (config, spec) => (!Done(config, spec, command), InstallSpec(config, spec, command, extras))
  }

  /** Whether any step writes the file, and the file at the end. */
  function InstallAll(config: Fields, specs: seq<Spec>, command: string, extras: Fields): (bool, Fields) {
    Steps(InstallStep(command, extras), config, specs)
  }

  lemma InstallAllNext(config: Fields, specs: seq<Spec>, spec: Spec, command: string, extras: Fields)
    ensures var before, after := InstallAll(config, specs, command, extras), InstallAll(config, specs + [spec], command, extras);
      after.0 == (before.0 || !Done(before.1, spec, command)) && after.1 == InstallSpec(before.1, spec, command, extras)
  {
    StepsNext(InstallStep(command, extras), config, specs, spec);
  }

  predicate Clash(a: Spec, b: Spec) {
    a.event == b.event && Trim(a.matcher) != Trim(b.matcher)
  }

  ghost predicate Harmonious(specs: seq<Spec>) {
    forall s, t :: s in specs && t in specs ==> !Clash(s, t)
  }

  ghost predicate Compatible(spec: Spec, specs: seq<Spec>) {
    forall s :: s in specs ==> !Clash(spec, s)
  }

  lemma HarmoniousTail(specs: seq<Spec>)
    requires specs != [] && Harmonious(specs)
    ensures Harmonious(specs[1..]) && Compatible(specs[0], specs[1..])
  {
  }

  lemma {:induction false} InstallAllIdle(config: Fields, specs: seq<Spec>, command: string, extras: Fields)
    ensures !InstallAll(config, specs, command, extras).0 <==> All(DoneIn(config, command), specs)
    decreases |specs|
  {
    if specs != [] {
      InstallAllIdle(InstallSpec(config, specs[0], command, extras), specs[1..], command, extras);
    }
  }

  lemma InstallKeepsDone(config: Fields, done: Spec, spec: Spec, command: string, extras: Fields)
    requires Done(config, done, command) && !Clash(done, spec)
    ensures Done(InstallSpec(config, spec, command, extras), done, command)
  {
    if done.event != spec.event {
      InstallElsewhere(config, spec.event, spec.matcher, command, extras);
    }
  }

  lemma {:induction false} InstallAllKeepsDone(config: Fields, done: Spec, specs: seq<Spec>, command: string, extras: Fields)
    requires Done(config, done, command) && Compatible(done, specs)
    ensures Done(InstallAll(config, specs, command, extras).1, done, command)
    decreases |specs|
  {
    if specs != [] {
      InstallKeepsDone(config, done, specs[0], command, extras);
      InstallAllKeepsDone(InstallSpec(config, specs[0], command, extras), done, specs[1..], command, extras);
    }
  }

  lemma {:induction false} InstallAllDoes(config: Fields, specs: seq<Spec>, command: string, extras: Fields)
    requires CommandOf(NewHook(command, extras)) == command && Harmonious(specs)
    ensures All(DoneIn(InstallAll(config, specs, command, extras).1, command), specs)
    decreases |specs|
  {
    if specs != [] {
      HarmoniousTail(specs);
      InstallAllDoes(InstallSpec(config, specs[0], command, extras), specs[1..], command, extras);
      FirstStaysDone(config, specs[0], specs[1..], command, extras);
    }
  }

  lemma FirstStaysDone(config: Fields, spec: Spec, specs: seq<Spec>, command: string, extras: Fields)
    requires CommandOf(NewHook(command, extras)) == command && Compatible(spec, specs)
    ensures DoneIn(InstallAll(InstallSpec(config, spec, command, extras), specs, command, extras).1, command)(spec)
  {
    var next := InstallSpec(config, spec, command, extras);
    assert Done(next, spec, command) by { InstallSettlesExactly(config, spec.event, spec.matcher, command, extras); }
    InstallAllKeepsDone(next, spec, specs, command, extras);
  }

  lemma ClashNeverDone(config: Fields, s: Spec, t: Spec, command: string)
    requires Clash(s, t) && Done(config, s, command)
    ensures !Done(config, t, command)
  {
    var entries := GroupsOf(config, s.event);
    AnyMeans(HoldsBy(Trim(s.matcher), command), entries);
    var e :| e in entries && HoldsBy(Trim(s.matcher), command)(e);
    AnyMeans(CopyOf(command), ListAt(e.fields, HOOKS));
    var h :| h in ListAt(e.fields, HOOKS) && CopyOf(command)(h);
    if Done(config, t, command) {
      SettledHook(Upgrading(Trim(t.matcher), command), entries, e, h);
      assert false;
    }
  }

  /** A second installation writes nothing, from every starting file, exactly when the table
      of hooks names no event under two different matchers. */
  lemma SecondInstallIdleExactly(config: Fields, specs: seq<Spec>, command: string, extras: Fields)
    requires CommandOf(NewHook(command, extras)) == command
    ensures !InstallAll(InstallAll(config, specs, command, extras).1, specs, command, extras).0 <==> Harmonious(specs)
  {
    var once := InstallAll(config, specs, command, extras).1;
    InstallAllIdle(once, specs, command, extras);
    if Harmonious(specs) {
      InstallAllDoes(config, specs, command, extras);
    } else {
      AllMeans(DoneIn(once, command), specs);
      var s, t :| s in specs && t in specs && Clash(s, t);
      if Done(once, s, command) { ClashNeverDone(once, s, t, command); }
      assert !DoneIn(once, command)(s) || !DoneIn(once, command)(t);
    }
  }

  // ----- the user's settings: one hook in, one hook out -----

  predicate CopyIn(entry: Json, command: string) {
    entry.Obj? && Any(CopyOf(command), ListAt(entry.fields, HOOKS))
  }

  function CopyInBy(command: string): Json -> bool {
    entry => CopyIn(entry, command)
  }

  predicate HasCopy(entries: seq<Json>, command: string) {
    Any(CopyInBy(command), entries)
  }

  function UserGroup(matcher: string, command: string): Json {
    NewGroup(NewHook(command, map[]), if matcher == "" then None else Some(matcher))
  }

  /** installClaudeHook. */
  function Merge(config: Fields, event: string, matcher: string, command: string): Fields {
    var entries := GroupsOf(config, event);
    if HasCopy(entries, command) then config
    else WithGroups(config, event, entries + [UserGroup(matcher, command)])
  }

  /** The settings with the event's groups replaced, leaving no empty container. */
  function WithoutEmpty(config: Fields, event: string, groups: seq<Json>): Fields {
    var hooks := if groups == [] then HooksOf(config) - {event} else HooksOf(config)[event := Arr(groups)];
    if hooks == map[] then config - {HOOKS} else config[HOOKS := Obj(hooks)]
  }

  /** uninstallClaudeHook. */
  function Unmerge(config: Fields, event: string, command: string): Fields {
    var entries := GroupsOf(config, event);
    var kept := KeptGroups(Removal(command), entries);
    if kept == entries then config else WithoutEmpty(config, event, kept)
  }

  lemma UserGroupFacts(matcher: string, command: string)
    ensures var g, h := UserGroup(matcher, command), NewHook(command, map[]);
      g.Obj? && h.Obj? && ListAt(g.fields, HOOKS) == [h] && CommandOf(h) == command && CopyIn(g, command)
  {
    NewGroupFacts(NewHook(command, map[]), matcher);
    NewHookCommand(command);
  }

  /** After a merge the command is there, a second merge does nothing, and the rest of the tree
      is untouched. */
  lemma MergeTwice(config: Fields, event: string, matcher: string, command: string)
    ensures var once := Merge(config, event, matcher, command);
      HasCopy(GroupsOf(once, event), command) && Merge(once, event, matcher, command) == once
      && SameElsewhere(config, once, event)
  {
    var entries, g := GroupsOf(config, event), UserGroup(matcher, command);
    UserGroupFacts(matcher, command);
    GroupsWritten(config, event, entries + [g]);
    WritingElsewhere(config, event, entries + [g]);
    AnyNext(CopyInBy(command), entries, g);
  }

  lemma Removed(config: Fields, event: string, groups: seq<Json>)
    ensures GroupsOf(WithoutEmpty(config, event, groups), event) == groups
    ensures SameElsewhere(config, WithoutEmpty(config, event, groups), event)
  {
  }

  /** After an unmerge no hook under the event runs the command, white space around it aside;
      the foreign hooks are all there, in order; the rest of the tree is untouched; and a second
      unmerge does nothing. */
  lemma UnmergeRemoves(config: Fields, event: string, command: string)
    ensures var after := Unmerge(config, event, command);
      && AllSettled(Removal(command), GroupsOf(after, event))
      && Foreign(Removal(command), GroupsOf(after, event)) == Foreign(Removal(command), GroupsOf(config, event))
      && SameElsewhere(config, after, event)
      && Unmerge(after, event, command) == after
  {
    var rule, entries := Removal(command), GroupsOf(config, event);
    var kept := KeptGroups(rule, entries);
    PassSettles(rule, entries);
    PassKeepsForeign(rule, entries);
    PassIsIdleExactly(rule, kept);
    Removed(config, event, kept);
  }

  // ----- the round trip -----

  /** What the merge finds on the way to its event: nothing, or containers that hold something. */
  predicate Roomy(config: Fields, event: string) {
    HOOKS in config ==>
      && config[HOOKS].Obj? && config[HOOKS].fields != map[]
      && (event in config[HOOKS].fields ==>
          config[HOOKS].fields[event].Arr? && config[HOOKS].fields[event].items != [])
  }

  /** A hook that the removal takes for the command, though the merge may not. */
  predicate NearCopy(hook: Json, command: string) {
    hook.Obj? && Trim(CommandOf(hook)) == command
  }

  function NearCopyOf(command: string): Json -> bool {
    hook => NearCopy(hook, command)
  }

  predicate NearCopyIn(entry: Json, command: string) {
    entry.Obj? && Any(NearCopyOf(command), ListAt(entry.fields, HOOKS))
  }

  function NearCopyInBy(command: string): Json -> bool {
    entry => NearCopyIn(entry, command)
  }

  predicate HasNearCopy(entries: seq<Json>, command: string) {
    Any(NearCopyInBy(command), entries)
  }

  lemma {:induction false} AllNotAny(p: Json -> bool, q: Json -> bool, r: Json -> bool, items: seq<Json>)
    requires forall x :: p(x) <==> q(x) && !r(x)
    ensures All(p, items) <==> All(q, items) && !Any(r, items)
    decreases |items|
  {
    if items != [] { AllNotAny(p, q, r, items[1..]); }
  }

  lemma SettledForRemoval(e: Json, command: string)
    ensures SettledBy(Removal(command))(e) <==> NotEmpty(e) && !NearCopyInBy(command)(e)
  {
    if e.Obj? {
      var hooks := ListAt(e.fields, HOOKS);
      AllMeans(KeptHere(Removal(command), e.fields), hooks);
      AnyMeans(NearCopyOf(command), hooks);
      forall h ensures KeptHere(Removal(command), e.fields)(h) <==> !NearCopyOf(command)(h) {}
    }
  }

  lemma IdleRemoval(entries: seq<Json>, command: string)
    ensures KeptGroups(Removal(command), entries) == entries <==> All(NotEmpty, entries) && !HasNearCopy(entries, command)
  {
    PassIsIdleExactly(Removal(command), entries);
    forall e ensures SettledBy(Removal(command))(e) <==> NotEmpty(e) && !NearCopyInBy(command)(e) {
      SettledForRemoval(e, command);
    }
    AllNotAny(SettledBy(Removal(command)), NotEmpty, NearCopyInBy(command), entries);
  }

  lemma LastGroup(rule: Rule, entries: seq<Json>, g: Json, h: Json)
    requires g.Obj? && ListAt(g.fields, HOOKS) == [h]
    ensures KeptGroups(rule, entries + [g]) ==
      KeptGroups(rule, entries) + (if KeptHere(rule, g.fields)(h) then [g] else [])
  {
    PresentNext(KeptBy(rule), entries, g);
    assert [h] == [] + [h];
    FilterNext(KeptHere(rule, g.fields), [], h);
    if KeptHere(rule, g.fields)(h) { RewriteIsSame(g.fields, [h]); }
  }

  /** The added group goes exactly when the command has no white space around it. */
  lemma UserGroupRemoved(entries: seq<Json>, matcher: string, command: string)
    ensures var rule, g := Removal(command), UserGroup(matcher, command);
      KeptGroups(rule, entries + [g]) == KeptGroups(rule, entries) + (if Trimmed(command) then [] else [g])
  {
    UserGroupFacts(matcher, command);
    TrimFixesTrimmed(command);
    LastGroup(Removal(command), entries, UserGroup(matcher, command), NewHook(command, map[]));
  }

  /** What writing the event's groups and cutting them back again does to the tree. */
  lemma BackExactly(config: Fields, event: string, groups: seq<Json>, kept: seq<Json>)
    ensures WithoutEmpty(WithGroups(config, event, groups), event, kept) == config
      <==> kept == GroupsOf(config, event) && Roomy(config, event)
  {
    var back := WithoutEmpty(WithGroups(config, event, groups), event, kept);
    var hooks := HooksOf(config);
    if kept == [] {
      BackToNothing(config, event, groups);
    } else {
      var after := hooks[event := Arr(kept)];
      assert hooks[event := Arr(groups)][event := Arr(kept)] == after;
      assert event in after;
      assert WithGroups(config, event, groups)[HOOKS := Obj(after)] == config[HOOKS := Obj(after)];
      assert back == config[HOOKS := Obj(after)];
      if back == config {
        assert config[HOOKS] == Obj(after);
        assert config[HOOKS].fields[event] == Arr(kept);
      }
      if kept == GroupsOf(config, event) && Roomy(config, event) {
        assert after == hooks;
      }
    }
  }

  lemma BackToNothing(config: Fields, event: string, groups: seq<Json>)
    ensures WithoutEmpty(WithGroups(config, event, groups), event, []) == config
      <==> [] == GroupsOf(config, event) && Roomy(config, event)
  {
    var hooks := HooksOf(config);
    var back := WithoutEmpty(WithGroups(config, event, groups), event, []);
    assert hooks[event := Arr(groups)] - {event} == hooks - {event};
    if hooks - {event} == map[] {
      assert WithGroups(config, event, groups) - {HOOKS} == config - {HOOKS};
      assert back == config - {HOOKS};
      forall e | e in hooks ensures e == event {
        assert e !in hooks - {event};
      }
    } else {
      assert WithGroups(config, event, groups)[HOOKS := Obj(hooks - {event})] == config[HOOKS := Obj(hooks - {event})];
      assert back == config[HOOKS := Obj(hooks - {event})];
      if event !in hooks {
        assert hooks - {event} == hooks;
      }
    }
  }

  /** Taking the hook out again restores the settings exactly when no group under the event was
      empty and: if a copy was there already, the command has white space around it (so the
      removal never finds it); else the command has none, no near copy was there, and the
      containers on the way were absent or non-empty. */
  lemma UnmergeUndoesExactly(config: Fields, event: string, matcher: string, command: string)
    ensures Unmerge(Merge(config, event, matcher, command), event, command) == config <==>
      var entries := GroupsOf(config, event);
      All(NotEmpty, entries) &&
      if HasCopy(entries, command) then !Trimmed(command)
      else Trimmed(command) && !HasNearCopy(entries, command) && Roomy(config, event)
  {
    var entries, g := GroupsOf(config, event), UserGroup(matcher, command);
    IdleRemoval(entries, command);
    if HasCopy(entries, command) {
      CopyIsNear(entries, command);
      Removed(config, event, KeptGroups(Removal(command), entries));
    } else {
      UserGroupRemoved(entries, matcher, command);
      NotBack(entries, matcher, command);
      MergedBack(config, event, g, KeptGroups(Removal(command), entries), Trimmed(command), command);
    }
  }

  lemma MergedBack(config: Fields, event: string, g: Json, left: seq<Json>, gone: bool, command: string)
    requires g !in GroupsOf(config, event) && |left| <= |GroupsOf(config, event)|
    requires KeptGroups(Removal(command), GroupsOf(config, event) + [g]) == left + (if gone then [] else [g])
    ensures Unmerge(WithGroups(config, event, GroupsOf(config, event) + [g]), event, command) == config
      <==> gone && left == GroupsOf(config, event) && Roomy(config, event)
  {
    var entries := GroupsOf(config, event);
    GroupsWritten(config, event, entries + [g]);
    BackExactly(config, event, entries + [g], left + (if gone then [] else [g]));
    assert !gone ==> g in left + [g];
  }

  lemma NotBack(entries: seq<Json>, matcher: string, command: string)
    requires !HasCopy(entries, command)
    ensures UserGroup(matcher, command) !in entries
  {
    UserGroupFacts(matcher, command);
    AnyMeans(CopyInBy(command), entries);
    assert CopyInBy(command)(UserGroup(matcher, command));
  }

  lemma CopyIsNear(entries: seq<Json>, command: string)
    requires HasCopy(entries, command)
    ensures HasNearCopy(entries, command) <==> Trimmed(command)
  {
    AnyMeans(CopyInBy(command), entries);
    AnyMeans(NearCopyInBy(command), entries);
    if Trimmed(command) {
      var e :| e in entries && CopyInBy(command)(e);
      TrimmedCopyIsNear(e, command);
      assert NearCopyInBy(command)(e);
    } else {
      forall e | e in entries ensures !NearCopyInBy(command)(e) { UntrimmedHasNoNear(e, command); }
    }
  }

  lemma TrimmedCopyIsNear(e: Json, command: string)
    requires Trimmed(command) && CopyIn(e, command)
    ensures NearCopyIn(e, command)
  {
    TrimFixesTrimmed(command);
    var hooks := ListAt(e.fields, HOOKS);
    AnyMeans(CopyOf(command), hooks);
    AnyMeans(NearCopyOf(command), hooks);
    var h :| h in hooks && CopyOf(command)(h);
    assert NearCopyOf(command)(h);
  }

  lemma UntrimmedHasNoNear(e: Json, command: string)
    requires !Trimmed(command)
    ensures !NearCopyIn(e, command)
  {
    if NearCopyIn(e, command) {
      var hooks := ListAt(e.fields, HOOKS);
      AnyMeans(NearCopyOf(command), hooks);
      var h :| h in hooks && NearCopyOf(command)(h);
      TrimFixesTrimmed(CommandOf(h));
      assert false;
    }
  }

  // ----- what is written, field by field -----

  /** A hook of the group, as an object with the text of its command. */
  ghost predicate HookIn(entry: Json, hook: Json, command: string) {
    && entry.Obj? && hook.Obj? && hook in ListAt(entry.fields, "hooks")
    && TextAt(hook.fields, "command") == command
  }

  /** In place means: some group with the matcher holds the command; no group is without hooks; and
      every hook of the groups is the command under that matcher or a command that is not managed
      with it. */
  lemma InPlaceExactly(config: Fields, event: string, matcher: string, command: string)
    ensures var entries := GroupsOf(config, event);
      InPlace(config, event, matcher, command) <==>
        && (exists e, h :: e in entries && HookIn(e, h, command) && Trim(TextAt(e.fields, "matcher")) == Trim(matcher))
        && (forall e :: e in entries && e.Obj? ==> ListAt(e.fields, "hooks") != [])
        && (forall e, h, c :: e in entries && HookIn(e, h, c) ==>
              if c == command then Trim(TextAt(e.fields, "matcher")) == Trim(matcher)
              else !HookCommands.SameManagedAgentHookCommand(c, command))
  {
    var entries, desired := GroupsOf(config, event), Trim(matcher);
    HasExactly(entries, desired, command);
    SettledExactly(entries, desired, command);
  }

  lemma HasExactly(entries: seq<Json>, desired: string, command: string)
    ensures Has(entries, desired, command) <==>
      exists e, h :: e in entries && HookIn(e, h, command) && Trim(TextAt(e.fields, "matcher")) == desired
  {
    AnyMeans(HoldsBy(desired, command), entries);
    forall e ensures HoldsBy(desired, command)(e) <==>
      exists h :: HookIn(e, h, command) && Trim(TextAt(e.fields, "matcher")) == desired
    {
      if e.Obj? {
        AnyMeans(CopyOf(command), ListAt(e.fields, HOOKS));
        forall h ensures CopyOf(command)(h) && h in ListAt(e.fields, HOOKS) <==> HookIn(e, h, command) {}
      }
    }
  }

  lemma SettledExactly(entries: seq<Json>, desired: string, command: string)
    ensures AllSettled(Upgrading(desired, command), entries) <==>
      && (forall e :: e in entries && e.Obj? ==> ListAt(e.fields, "hooks") != [])
      && (forall e, h, c :: e in entries && HookIn(e, h, c) ==>
            if c == command then Trim(TextAt(e.fields, "matcher")) == desired
            else !HookCommands.SameManagedAgentHookCommand(c, command))
  {
    var rule := Upgrading(desired, command);
    AllMeans(SettledBy(rule), entries);
    forall e ensures SettledBy(rule)(e) <==>
      && (e.Obj? ==> ListAt(e.fields, "hooks") != [])
      && (forall h, c :: HookIn(e, h, c) ==>
            if c == command then Trim(TextAt(e.fields, "matcher")) == desired else !ManagedWith(command)(c))
    {
      OneSettled(e, rule);
    }
    assert forall c :: ManagedWith(command)(c) == HookCommands.SameManagedAgentHookCommand(c, command);
  }

  lemma OneSettled(e: Json, rule: Rule)
    requires rule.Upgrade?
    ensures Settled(rule, e) <==>
      && (e.Obj? ==> ListAt(e.fields, "hooks") != [])
      && (forall h, c :: HookIn(e, h, c) ==>
            if c == rule.command then Trim(TextAt(e.fields, "matcher")) == rule.desired else !rule.managed(c))
  {
    if e.Obj? {
      var hooks := ListAt(e.fields, HOOKS);
      AllMeans(KeptHere(rule, e.fields), hooks);
      if Settled(rule, e) {
        forall h, c | HookIn(e, h, c)
          ensures if c == rule.command then Trim(TextAt(e.fields, "matcher")) == rule.desired else !rule.managed(c)
        {
          assert KeptHere(rule, e.fields)(h);
        }
      } else if hooks != [] {
        var h :| h in hooks && !KeptHere(rule, e.fields)(h);
        assert HookIn(e, h, CommandOf(h));
      }
    }
  }

  /** The group an installation adds holds one hook and, unless it is blank, the matcher; the hook
      is a command hook of the given command, with the extra fields over that. */
  predicate AddedGroup(g: Json, matcher: string, hasMatcher: bool, command: string, extras: Fields) {
    && g.Obj? && g.fields.Keys == (if hasMatcher then {"hooks", "matcher"} else {"hooks"})
    && (hasMatcher ==> g.fields["matcher"] == Str(matcher))
    && g.fields["hooks"].Arr? && |g.fields["hooks"].items| == 1 && AddedHook(g.fields["hooks"].items[0], command, extras)
  }

  predicate AddedHook(h: Json, command: string, extras: Fields) {
    && h.Obj? && h.fields.Keys == {"type", "command"} + extras.Keys
    && (forall k :: k in extras ==> h.fields[k] == extras[k])
    && ("type" !in extras ==> h.fields["type"] == Str("command"))
    && ("command" !in extras ==> h.fields["command"] == Str(command))
  }

  lemma NewHookSpelled(command: string, extras: Fields)
    ensures AddedHook(NewHook(command, extras), command, extras)
  {
    assert |"type"| == 4 && |"command"| == 7;
  }

  lemma NewGroupSpelled(hook: Json, matcher: Option<string>)
    ensures var g := NewGroup(hook, matcher);
      && g.Obj? && g.fields.Keys == (if matcher.Some? then {"hooks", "matcher"} else {"hooks"})
      && (matcher.Some? ==> g.fields["matcher"] == Str(matcher.value)) && g.fields["hooks"] == Arr([hook])
  {
    assert |"hooks"| == 5 && |"matcher"| == 7;
  }

  /** What an installation leaves under its event, unless the command was in place: the kept groups,
      and, exactly when no group with the matcher held the command, one group added at the end. */
  lemma InstallWrites(config: Fields, event: string, matcher: string, command: string, extras: Fields)
    requires !InPlace(config, event, matcher, command)
    ensures var before, after := GroupsOf(config, event), GroupsOf(Install(config, event, matcher, command, extras), event);
      var kept := KeptGroups(Upgrading(Trim(matcher), command), before);
      if exists e, h :: e in before && HookIn(e, h, command) && Trim(TextAt(e.fields, "matcher")) == Trim(matcher)
      then after == kept
      else
        && |after| == |kept| + 1 && after[..|kept|] == kept
        && AddedGroup(after[|kept|], matcher, Trim(matcher) != "", command, extras)
  {
    InstallGroups(config, event, matcher, command, extras);
    HasExactly(GroupsOf(config, event), Trim(matcher), command);
    NewHookSpelled(command, extras);
    NewGroupSpelled(NewHook(command, extras), if Trim(matcher) == "" then None else Some(matcher));
  }

  /** What the passes keep, group by group: what is not an object stays; an object stays exactly when
      one of its hooks does, with all its fields but the list of hooks; and of that list exactly the
      hooks that the rule keeps. */
  lemma PassKeeps(rule: Rule, entries: seq<Json>, after: Json)
    ensures after in KeptGroups(rule, entries) <==>
      exists e :: e in entries && KeptFrom(rule, e, after)
  {
    PresentMembers(KeptBy(rule), entries);
    forall e ensures KeptBy(rule)(e) == Some(after) <==> KeptFrom(rule, e, after) { OneKept(rule, e, after); }
  }

  ghost predicate KeptFrom(rule: Rule, before: Json, after: Json) {
    if !before.Obj? then after == before
    else
      && after.Obj? && after.fields - {"hooks"} == before.fields - {"hooks"}
      && "hooks" in after.fields && after.fields["hooks"].Arr? && after.fields["hooks"].items != []
      && after.fields["hooks"].items == Filter(KeptHere(rule, before.fields), ListAt(before.fields, "hooks"))
      && forall h :: h in after.fields["hooks"].items <==>
           h in ListAt(before.fields, "hooks") && Keeps(rule, before.fields, h)
  }

  lemma OneKept(rule: Rule, e: Json, after: Json)
    ensures KeptBy(rule)(e) == Some(after) <==> KeptFrom(rule, e, after)
  {
    if e.Obj? {
      var hooks := Filter(KeptHere(rule, e.fields), ListAt(e.fields, HOOKS));
      FilterMembers(KeptHere(rule, e.fields), ListAt(e.fields, HOOKS));
      assert e.fields[HOOKS := Arr(hooks)] - {HOOKS} == e.fields - {HOOKS};
      if KeptFrom(rule, e, after) {
        assert after.fields == (after.fields - {HOOKS})[HOOKS := Arr(hooks)];
        assert e.fields[HOOKS := Arr(hooks)] == (e.fields - {HOOKS})[HOOKS := Arr(hooks)];
      }
    }
  }

  /** What the two rules keep, on the texts: everything that is not an object; for an upgrade, the
      command under its matcher and the commands that are not managed with it; for a removal, the
      commands that differ from it without surrounding white space. */
  lemma KeepsExactly(group: Fields, hook: Json, matcher: string, command: string)
    ensures Keeps(Upgrading(Trim(matcher), command), group, hook) <==>
      (hook.Obj? ==>
        var c := TextAt(hook.fields, "command");
        if c == command then Trim(TextAt(group, "matcher")) == Trim(matcher)
        else !HookCommands.SameManagedAgentHookCommand(c, command))
    ensures Keeps(Removal(command), group, hook) <==> (hook.Obj? ==> Trim(TextAt(hook.fields, "command")) != command)
  {
  }

  /** What a merge leaves under its event: the old groups, and, exactly when none of them holds the
      command, one group added at the end. */
  lemma MergeWrites(config: Fields, event: string, matcher: string, command: string)
    ensures var before, after := GroupsOf(config, event), GroupsOf(Merge(config, event, matcher, command), event);
      if exists e, h :: e in before && HookIn(e, h, command) then after == before
      else |after| == |before| + 1 && after[..|before|] == before && AddedGroup(after[|before|], matcher, matcher != "", command, map[])
  {
    HasCopyExactly(GroupsOf(config, event), command);
    NewHookSpelled(command, map[]);
    NewGroupSpelled(NewHook(command, map[]), if matcher == "" then None else Some(matcher));
    GroupsWritten(config, event, GroupsOf(config, event) + [UserGroup(matcher, command)]);
  }

  lemma HasCopyExactly(entries: seq<Json>, command: string)
    ensures HasCopy(entries, command) <==> exists e, h :: e in entries && HookIn(e, h, command)
  {
    AnyMeans(CopyInBy(command), entries);
    forall e ensures CopyInBy(command)(e) <==> exists h :: HookIn(e, h, command) {
      if e.Obj? {
        AnyMeans(CopyOf(command), ListAt(e.fields, HOOKS));
        forall h ensures CopyOf(command)(h) && h in ListAt(e.fields, HOOKS) <==> HookIn(e, h, command) {}
      }
    }
  }

  /** After an unmerge no hook under the event has the command, white space around it aside, and no
      group is empty. */
  lemma UnmergeLeavesNone(config: Fields, event: string, command: string)
    ensures forall e, h, c :: e in GroupsOf(Unmerge(config, event, command), event) && HookIn(e, h, c) ==> Trim(c) != command
    ensures GroupsOf(Unmerge(config, event, command), event) == KeptGroups(Removal(command), GroupsOf(config, event))
  {
    var entries := GroupsOf(config, event);
    var kept := KeptGroups(Removal(command), entries);
    UnmergeRemoves(config, event, command);
    Removed(config, event, kept);
    var after := GroupsOf(Unmerge(config, event, command), event);
    forall e, h, c | e in after && HookIn(e, h, c) ensures Trim(c) != command {
      SettledHook(Removal(command), after, e, h);
    }
  }

  // ----- the loops -----

  /** The inner loop of installHook, over the hooks of one group. */
  method UpgradeHooks(group: Fields, hooks: seq<Json>, desired: string, command: string, managed: string -> bool)
    returns (filtered: seq<Json>, changed: bool, hasDesired: bool)
    ensures filtered == Filter(KeptHere(Upgrade(desired, command, managed), group), hooks)
    ensures changed <==> |filtered| != |hooks|
    ensures hasDesired <==> MatcherOf(group) == desired && Any(CopyOf(command), hooks)
  {
    ghost var keep := KeptHere(Upgrade(desired, command, managed), group);
    var here := MatcherOf(group) == desired;
    filtered, changed, hasDesired := [], false, false;
    for j := 0 to |hooks|
      invariant filtered == Filter(keep, hooks[..j])
      invariant changed <==> |filtered| != j
      invariant hasDesired <==> here && Any(CopyOf(command), hooks[..j])
    {
      var h := hooks[j];
      assert hooks[..j + 1] == hooks[..j] + [h];
      FilterNext(keep, hooks[..j], h);
      AnyNext(CopyOf(command), hooks[..j], h);
      if !h.Obj? {
        filtered := filtered + [h];
      } else if CommandOf(h) == command {
        if !here {
          changed := true;
        } else {
          hasDesired := true;
          filtered := filtered + [h];
        }
      } else if managed(CommandOf(h)) {
        changed := true;
      } else {
        filtered := filtered + [h];
      }
    }
    assert hooks[..|hooks|] == hooks;
  }

  /** The outer loop of installHook. */
  method UpgradeGroups(entries: seq<Json>, desired: string, command: string, managed: string -> bool)
    returns (kept: seq<Json>, changed: bool, hasDesired: bool)
    ensures kept == KeptGroups(Upgrade(desired, command, managed), entries)
    ensures changed <==> !AllSettled(Upgrade(desired, command, managed), entries)
    ensures hasDesired <==> Has(entries, desired, command)
  {
    ghost var rule := Upgrade(desired, command, managed);
    kept, changed, hasDesired := [], false, false;
    for i := 0 to |entries|
      invariant kept == KeptGroups(rule, entries[..i])
      invariant changed <==> !AllSettled(rule, entries[..i])
      invariant hasDesired <==> Has(entries[..i], desired, command)
    {
      var entry := entries[i];
      assert entries[..i + 1] == entries[..i] + [entry];
      PresentNext(KeptBy(rule), entries[..i], entry);
      AllNext(SettledBy(rule), entries[..i], entry);
      AnyNext(HoldsBy(desired, command), entries[..i], entry);
      if entry.Obj? {
        var hooks := ListAt(entry.fields, HOOKS);
        var filtered, dropped, found := UpgradeHooks(entry.fields, hooks, desired, command, managed);
        FilterAllExactly(KeptHere(rule, entry.fields), hooks);
        RewriteIsSame(entry.fields, hooks);
        changed, hasDesired := changed || dropped, hasDesired || found;
        var group := if |filtered| != |hooks| then entry.fields[HOOKS := Arr(filtered)] else entry.fields;
        if |filtered| == 0 {
          changed := true;
        } else {
          kept := kept + [Obj(group)];
        }
      } else {
        kept := kept + [entry];
      }
    }
    assert entries[..|entries|] == entries;
  }

  /** The loop of uninstallClaudeHook over the hooks of one group. */
  method RemoveHooks(group: Fields, hooks: seq<Json>, command: string) returns (filtered: seq<Json>, changed: bool)
    ensures filtered == Filter(KeptHere(Removal(command), group), hooks)
    ensures changed <==> |filtered| != |hooks|
  {
    ghost var keep := KeptHere(Removal(command), group);
    filtered, changed := [], false;
    for j := 0 to |hooks|
      invariant filtered == Filter(keep, hooks[..j])
      invariant changed <==> |filtered| != j
    {
      var h := hooks[j];
      assert hooks[..j + 1] == hooks[..j] + [h];
      FilterNext(keep, hooks[..j], h);
      if h.Obj? && Trim(CommandOf(h)) == command {
        changed := true;
      } else {
        filtered := filtered + [h];
      }
    }
    assert hooks[..|hooks|] == hooks;
  }

  /** The loop of uninstallClaudeHook over the groups of the event. */
  method RemoveGroups(entries: seq<Json>, command: string) returns (kept: seq<Json>, changed: bool)
    ensures kept == KeptGroups(Removal(command), entries)
    ensures changed <==> kept != entries
  {
    ghost var rule := Removal(command);
    kept, changed := [], false;
    for i := 0 to |entries|
      invariant kept == KeptGroups(rule, entries[..i])
      invariant changed <==> !AllSettled(rule, entries[..i])
    {
      var entry := entries[i];
      assert entries[..i + 1] == entries[..i] + [entry];
      PresentNext(KeptBy(rule), entries[..i], entry);
      AllNext(SettledBy(rule), entries[..i], entry);
      if entry.Obj? {
        var hooks := ListAt(entry.fields, HOOKS);
        var filtered, dropped := RemoveHooks(entry.fields, hooks, command);
        FilterAllExactly(KeptHere(rule, entry.fields), hooks);
        changed := changed || dropped;
        if |filtered| == 0 {
          changed := true;
        } else {
          kept := kept + [Obj(entry.fields[HOOKS := Arr(filtered)])];
        }
      } else {
        kept := kept + [entry];
      }
    }
    assert entries[..|entries|] == entries;
    PassIsIdleExactly(rule, entries);
  }

  /** The search of installClaudeHook, which stops at the first copy. */
  method FindCopy(entries: seq<Json>, command: string) returns (found: bool)
    ensures found <==> HasCopy(entries, command)
  {
    AnyMeans(CopyInBy(command), entries);
    for i := 0 to |entries|
      invariant !HasCopy(entries[..i], command)
    {
      var entry := entries[i];
      assert entries[..i + 1] == entries[..i] + [entry];
      AnyNext(CopyInBy(command), entries[..i], entry);
      if entry.Obj? {
        var hooks := ListAt(entry.fields, HOOKS);
        AnyMeans(CopyOf(command), hooks);
        for j := 0 to |hooks|
          invariant !Any(CopyOf(command), hooks[..j])
        {
          assert hooks[..j + 1] == hooks[..j] + [hooks[j]];
          AnyNext(CopyOf(command), hooks[..j], hooks[j]);
          if IsCopy(hooks[j], command) {
            assert CopyOf(command)(hooks[j]);
            assert CopyInBy(command)(entry);
            return true;
          }
        }
        assert hooks[..|hooks|] == hooks;
      }
    }
    assert entries[..|entries|] == entries;
    return false;
  }

  /** A settings file; an absent or null file reads as the empty tree. */
  class SettingsFile {
    var config: Fields

    /** installHook: `changed` says whether the file was written. */
    method InstallHook(event: string, matcher: string, command: string, extras: Fields) returns (changed: bool)
      modifies this
      ensures config == Install(old(config), event, matcher, command, extras)
      ensures changed <==> !InPlace(old(config), event, matcher, command)
    {
      var entries := GroupsOf(config, event);
      var desired := Trim(matcher);
      var kept, cleared, hasDesired := UpgradeGroups(entries, desired, command, ManagedWith(command));
      if hasDesired {
        if cleared { config := WithGroups(config, event, kept); }
        return cleared;
      }
      config := WithGroups(config, event, kept + [GroupToAdd(matcher, command, extras)]);
      return true;
    }

    method InstallOne(spec: Spec, command: string, extras: Fields) returns (changed: bool)
      modifies this
      ensures changed <==> !Done(old(config), spec, command)
      ensures config == InstallSpec(old(config), spec, command, extras)
    {
      changed := InstallHook(spec.event, spec.matcher, command, extras);
    }

    /** The part of InstallLocalWithOptions that goes through one provider's events. */
    method InstallProvider(specs: seq<Spec>, command: string, extras: Fields) returns (changed: bool)
      modifies this
      ensures changed == InstallAll(old(config), specs, command, extras).0
      ensures config == InstallAll(old(config), specs, command, extras).1
    {
      ghost var start := config;
      changed := false;
      for i := 0 to |specs|
        invariant changed == InstallAll(start, specs[..i], command, extras).0
        invariant config == InstallAll(start, specs[..i], command, extras).1
      {
        assert specs[..i + 1] == specs[..i] + [specs[i]];
        InstallAllNext(start, specs[..i], specs[i], command, extras);
        var added := InstallOne(specs[i], command, extras);
        changed := changed || added;
      }
      assert specs[..|specs|] == specs;
    }

    /** installClaudeHook. */
    method InstallClaudeHook(event: string, matcher: string, command: string) returns (added: bool)
      modifies this
      ensures config == Merge(old(config), event, matcher, command)
      ensures added <==> config != old(config)
    {
      var entries := GroupsOf(config, event);
      var found := FindCopy(entries, command);
      if found { return false; }
      GroupsWritten(config, event, entries + [UserGroup(matcher, command)]);
      config := WithGroups(config, event, entries + [UserGroup(matcher, command)]);
      return true;
    }

    /** uninstallClaudeHook. */
    method UninstallClaudeHook(event: string, command: string) returns (removed: bool)
      modifies this
      ensures config == Unmerge(old(config), event, command)
      ensures removed <==> config != old(config)
    {
      var entries := GroupsOf(config, event);
      if |entries| == 0 { return false; }
      var kept, changed := RemoveGroups(entries, command);
      if !changed { return false; }
      Removed(config, event, kept);
      var hooks := HooksOf(config);
      if |kept| == 0 {
        hooks := hooks - {event};
      } else {
        hooks := hooks[event := Arr(kept)];
      }
      if |hooks| == 0 {
        config := config - {HOOKS};
      } else {
        config := config[HOOKS := Obj(hooks)];
      }
      return true;
    }
  }
}
