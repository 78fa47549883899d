/** The hook command lines that flow installs: how they are built, and how the provider, the
    version and the server URL are recovered from them. */
module HookCommands {
  import opened Text
  import opened ShellWords

  const QUOTES := "\"'"

  // ----- strings.Fields -----

  function FieldsFrom(s: string, cur: string): seq<string>
    decreases |s|
  {
    if s == "" then (if cur == "" then [] else [cur])
    else if IsSpace(s[0]) then (if cur == "" then [] else [cur]) + FieldsFrom(s[1..], "")
    else FieldsFrom(s[1..], cur + [s[0]])
  }

  function Fields(s: string): seq<string> {
    FieldsFrom(s, "")
  }

  /** A word without white space. */
  predicate Solid(w: string) {
    w != "" && forall i :: 0 <= i < |w| ==> !IsSpace(w[i])
  }

  lemma {:induction false} SolidField(w: string, cur: string, rest: string)
    requires Solid(w)
    ensures FieldsFrom(w + rest, cur) == FieldsFrom(rest, cur + w)
    decreases |w|
  {
    assert (w + rest)[1..] == w[1..] + rest;
    if |w| == 1 {
      assert w == [w[0]] && w[1..] + rest == rest;
    } else {
      SolidField(w[1..], cur + [w[0]], rest);
      assert cur + [w[0]] + w[1..] == cur + w;
    }
  }

  /** Each word followed by one blank, and then the rest. */
  function Spaced(words: seq<string>, rest: string): string {
    if words == [] then rest else words[0] + (" " + Spaced(words[1..], rest))
  }

  lemma {:induction false} SpacedFields(words: seq<string>, rest: string)
    requires forall w :: w in words ==> Solid(w)
    ensures Fields(Spaced(words, rest)) == words + Fields(rest)
    decreases |words|
  {
    if words != [] {
      var tail := Spaced(words[1..], rest);
      SolidField(words[0], "", " " + tail);
      assert "" + words[0] == words[0];
      assert (" " + tail)[1..] == tail;
      SpacedFields(words[1..], rest);
      assert words == [words[0]] + words[1..];
    }
  }

  lemma {:induction false} SpacedSplit(a: seq<string>, b: seq<string>, rest: string)
    ensures Spaced(a + b, rest) == Spaced(a, Spaced(b, rest))
    decreases |a|
  {
    if a == [] {
      assert a + b == b;
    } else {
      SpacedSplit(a[1..], b, rest);
      assert (a + b)[1..] == a[1..] + b;
    }
  }

  lemma {:induction false} SpacedLexes(words: seq<string>, rest: string)
    requires forall w :: w in words ==> w != "" && AllPlain(w)
    ensures Lex(Spaced(words, rest), Between) == Prepend(Words(words), Lex(rest, Between))
    decreases |words|
  {
    if words == [] {
      EmptyPrepend(Lex(rest, Between));
    } else {
      assert words[0] in words;
      assert forall w :: w in words[1..] ==> w in words;
      PieceReads(Bare(words[0]), Spaced(words[1..], rest));
      SpacedLexes(words[1..], rest);
      PrependTwice([Word(words[0])], Words(words[1..]), Lex(rest, Between));
      assert Words(words) == [Word(words[0])] + Words(words[1..]);
    }
  }

  // ----- decimal numbers -----

  function Digit(d: nat): char
    requires d < 10
  {
    '0' + d as char
  }

  /** %d. */
  function Itoa(n: nat): (s: string)
    ensures s != "" && forall i :: 0 <= i < |s| ==> '0' <= s[i] <= '9'
  {
    if n < 10 then [Digit(n)] else Itoa(n / 10) + [Digit(n % 10)]
  }

  function ParseDigits(s: string): Option<nat> {
    if s == "" then Some(0)
    else
      var c, front := s[|s| - 1], ParseDigits(s[..|s| - 1]);
      if front.None? || !('0' <= c <= '9') then None else Some(10 * front.value + (c as int - '0' as int))
  }

  const MAX_INT64: nat := 0x7FFF_FFFF_FFFF_FFFF

  /** strconv.Atoi. */
  function Atoi(s: string): Option<int> {
    var negative := s != "" && s[0] == '-';
    var digits := if s != "" && (s[0] == '-' || s[0] == '+') then s[1..] else s;
    var n := ParseDigits(digits);
    if digits == "" || n.None? || n.value > MAX_INT64 + (if negative then 1 else 0) then None
    else Some(if negative then 0 - n.value else n.value)
  }

  lemma {:induction false} ParseItoa(n: nat)
    ensures ParseDigits(Itoa(n)) == Some(n)
    decreases n
  {
    if n >= 10 {
      ParseItoa(n / 10);
      assert Itoa(n)[..|Itoa(n)| - 1] == Itoa(n / 10);
    } else {
      assert Itoa(n)[..0] == "";
    }
  }

  lemma AtoiItoa(n: nat)
    requires n <= MAX_INT64
    ensures Atoi(Itoa(n)) == Some(n)
  {
    ParseItoa(n);
    assert '0' <= Itoa(n)[0] <= '9';
  }

  // ----- building -----

  /** agenthooks.shellQuoteArg. */
  function QuoteTrimmed(s: string): string {
    if Trim(s) == "" then "''" else ShellQuote(Trim(s))
  }

  function UrlTail(url: string): string {
    if Trim(url) == "" then "" else " --url " + QuoteTrimmed(Trim(url))
  }

  function HookWords(provider: string): seq<string> {
    ["flow", "hook", "agent-event", PROVIDER_FLAG, provider, VERSION_FLAG]
  }

  /** buildHookCommand with the stamped version as a parameter. */
  function BuildHookCommand(provider: string, version: nat, url: string): string {
    Spaced(HookWords(provider), Itoa(version) + UrlTail(url))
  }

  function GuardWords(): seq<string> {
    ["[", "\"${FLOW_HOOK_OWNED:-}\"", "=", "\"1\"", "]", "||", "exit", "0;", "exec"]
  }

  /** The script flowOwnedOnlyCommand hands to sh -c. */
  function OwnedScript(command: string): string {
    Spaced(GuardWords(), command)
  }

  function FlowOwnedOnlyCommand(command: string): string {
    Spaced(["sh", "-c"], QuoteTrimmed(OwnedScript(command)))
  }

  // ----- reading back -----

  function Unquote(field: string): string {
    Cut(field, QUOTES)
  }

  function Mapped<A, B>(f: A -> B, s: seq<A>): (r: seq<B>)
    ensures |r| == |s|
  {
    seq(|s|, i requires 0 <= i < |s| => f(s[i]))
  }

  lemma MappedAppend<A, B>(f: A -> B, a: seq<A>, b: seq<A>)
    ensures Mapped(f, a + b) == Mapped(f, a) + Mapped(f, b)
  {
  }

  function Unquoted(fields: seq<string>): seq<string> {
    Mapped(Unquote, fields)
  }

  /** The value in `flag=value`. */
  function Attached(field: string, flag: string): Option<string> {
    if flag + "=" <= field then Some(Unquote(field[|flag| + 1..])) else None
  }

  /** The value of the first occurrence of a flag among fields rid of their quotes, as
      `flag value` or `flag=value`. */
  function FlagValue(fields: seq<string>, flag: string): Option<string> {
    if fields == [] then None
    else if fields[0] == flag && |fields| > 1 then Some(fields[1])
    else if Attached(fields[0], flag).Some? then Attached(fields[0], flag)
    else FlagValue(fields[1..], flag)
  }

  const PROVIDER_FLAG := "--provider"
  const VERSION_FLAG := "--hook-version"

  function HookProvider(command: string): string {
    var value := FlagValue(Unquoted(Fields(command)), PROVIDER_FLAG);
    if value.Some? then value.value else ""
  }

  function NumberOr0(value: Option<string>): int {
    if value.Some? && Atoi(value.value).Some? then Atoi(value.value).value else 0
  }

  function HookVersionFromCommand(command: string): int {
    NumberOr0(FlagValue(Unquoted(Fields(command)), VERSION_FLAG))
  }

  function SameManagedAgentHookCommand(existingArg: string, desiredArg: string): bool {
    var existing, desired := Trim(existingArg), Trim(desiredArg);
    existing != "" && desired != ""
      && Contains(existing, "hook agent-event") && Contains(desired, "hook agent-event")
      && HookProvider(existing) != "" && HookProvider(existing) == HookProvider(desired)
  }

  // ----- the laws -----

  /** A usable provider name: safe characters, not looking like a flag. */
  predicate ProviderName(p: string) {
    p != "" && AllSafe(p) && p[0] != '-'
  }

  /** Visible ASCII only, hence without white space. */
  predicate Visible(w: string) {
    w != "" && forall i :: 0 <= i < |w| ==> '!' <= w[i] <= '~'
  }

  lemma SafeIsTame(s: string)
    requires AllSafe(s)
    ensures AllPlain(s)
    ensures s != "" ==> Visible(s)
    ensures Cut(s, QUOTES) == s && '\'' !in s
  {
    if s != "" {
      assert Safe(s[0]) && Safe(s[|s| - 1]);
    }
  }

  lemma VisibleIsSolid(w: string)
    requires Visible(w)
    ensures Solid(w)
  {
  }

  ghost predicate AllVisible(words: seq<string>) {
    forall i :: 0 <= i < |words| ==> Visible(words[i])
  }

  lemma VisibleFields(words: seq<string>, rest: string)
    requires AllVisible(words)
    ensures Fields(Spaced(words, rest)) == words + Fields(rest)
  {
    forall w | w in words ensures Solid(w) { VisibleIsSolid(w); }
    SpacedFields(words, rest);
  }

  lemma HookWordsVisible(provider: string)
    requires ProviderName(provider)
    ensures AllVisible(HookWords(provider))
  {
    SafeIsTame(provider);
  }

  lemma GuardWordsVisible()
    ensures AllVisible(GuardWords())
  {
  }

  lemma HookWordsPlain(provider: string)
    requires ProviderName(provider)
    ensures forall w :: w in HookWords(provider) ==> w != "" && AllPlain(w)
  {
    SafeIsTame(provider);
    assert AllPlain("flow") && AllPlain("hook") && AllPlain("agent-event");
    assert AllPlain("--provider") && AllPlain("--hook-version");
  }

  lemma QuoteTrimmedIs(s: string)
    ensures QuoteTrimmed(s) == ShellQuote(Trim(s))
  {
    if Trim(s) == "" { EmptyQuoted(); }
  }

  lemma EmptyQuoted()
    ensures ShellQuote("") == "''"
  {
    assert ReplaceChar("", '\'', "'\\''") == "";
  }

  /** Blank-separated bare words, one more word, and what follows it. */
  lemma SpacedThenWord(words: seq<string>, w: string, text: string, tail: seq<string>)
    requires forall x :: x in words ==> x != "" && AllPlain(x)
    requires w != "" && AllPlain(w) && Lex(text, InWord(w)) == Some(Words([w] + tail))
    ensures Lex(Spaced(words, w + text), Between) == Some(Words(words + [w] + tail))
  {
    SpacedLexes(words, w + text);
    PlainReads(w, Between, text);
    assert "" + w == w;
    WordsAppend(words, [w] + tail);
    assert words + [w] + tail == words + ([w] + tail);
  }

  lemma WordsAppend(a: seq<string>, b: seq<string>)
    ensures Words(a + b) == Words(a) + Words(b)
  {
  }

  /** The shell reads a built command back as its words, the URL included, whatever
      characters the URL has. */
  lemma HookCommandLexes(provider: string, version: nat, url: string)
    requires ProviderName(provider)
    ensures Lex(BuildHookCommand(provider, version, url), Between) ==
      Some(Words(HookWords(provider) + [Itoa(version)] + UrlWords(url)))
  {
    HookWordsPlain(provider);
    SafeIsTame(Itoa(version));
    UrlTailLexes(url, Itoa(version));
    SpacedThenWord(HookWords(provider), Itoa(version), UrlTail(url), UrlWords(url));
  }

  /** The same, word by word. */
  lemma HookCommandReads(provider: string, version: nat, url: string)
    requires ProviderName(provider)
    ensures Lex(BuildHookCommand(provider, version, url), Between) ==
      Some(Words(["flow", "hook", "agent-event", "--provider", provider, "--hook-version", Itoa(version)]
                 + (if Trim(url) == "" then [] else ["--url", Trim(url)])))
  {
    HookCommandLexes(provider, version, url);
    WordsSpelled(provider, Itoa(version));
  }

  lemma WordsSpelled(provider: string, number: string)
    ensures HookWords(provider) + [number]
         == ["flow", "hook", "agent-event", "--provider", provider, "--hook-version", number]
  {
  }

  function UrlWords(url: string): seq<string> {
    if Trim(url) == "" then [] else ["--url", Trim(url)]
  }

  lemma UrlTailLexes(url: string, w: string)
    ensures Lex(UrlTail(url), InWord(w)) == Some(Words([w] + UrlWords(url)))
  {
    if Trim(url) == "" {
      assert Words([w] + []) == [Word(w)];
    } else {
      TrimFixesTrimmed(url);
      TrimFixesTrimmed(Trim(url));
      QuoteTrimmedIs(Trim(url));
      UrlFlagLexes(Trim(url), w);
      assert [w] + UrlWords(url) == [w, "--url", Trim(url)];
    }
  }

  lemma UrlFlagLexes(url: string, w: string)
    ensures Lex(" --url " + ShellQuote(url), InWord(w)) == Some(Words([w, "--url", url]))
  {
    var quoted := ShellQuote(url);
    assert " --url " + quoted == " " + ("--url" + (" " + quoted));
    BlankReads(InWord(w), "--url" + (" " + quoted));
    FlagPlain();
    PlainReads("--url", Between, " " + quoted);
    assert "" + "--url" == "--url";
    BlankReads(InWord("--url"), quoted);
    QuoteReads(url, Between, "");
    assert quoted + "" == quoted && "" + url == url;
    assert Words([w, "--url", url]) == [Word(w)] + ([Word("--url")] + [Word(url)]);
  }

  lemma FlagPlain()
    ensures AllPlain("--url")
  {
  }

  /** The nested form: the shell hands sh -c exactly the guarded script, from which the
      command, and so its URL, can be read in turn. */
  lemma OwnedCommandLexes(command: string)
    requires command != "" && !IsSpace(command[|command| - 1])
    ensures Lex(FlowOwnedOnlyCommand(command), Between) == Some(Words(["sh", "-c", OwnedScript(command)]))
  {
    var script := OwnedScript(command);
    OwnedScriptTrimmed(command);
    QuoteTrimmedIs(script);
    ShPlain();
    SpacedLexes(["sh", "-c"], QuoteTrimmed(script));
    QuoteReads(script, Between, "");
    assert ShellQuote(script) + "" == ShellQuote(script) && "" + script == script;
    assert Words(["sh", "-c", script]) == Words(["sh", "-c"]) + [Word(script)];
  }

  /** The script that sh -c is handed is the guard followed by exactly the command that was
      wrapped. */
  lemma NestedCommandReads(provider: string, version: nat, url: string)
    requires ProviderName(provider)
    ensures var command, guard := BuildHookCommand(provider, version, url), Spaced(GuardWords(), "");
      Lex(FlowOwnedOnlyCommand(command), Between) == Some(Words(["sh", "-c", guard + command]))
  {
    var command := BuildHookCommand(provider, version, url);
    HookCommandEnds(provider, version, url);
    OwnedCommandLexes(command);
    SpacedRest(GuardWords(), command);
  }

  lemma ShPlain()
    ensures forall w :: w in ["sh", "-c"] ==> w != "" && AllPlain(w)
  {
    assert AllPlain("sh") && AllPlain("-c");
  }

  lemma {:induction false} SpacedEnds(words: seq<string>, rest: string)
    requires rest != ""
    ensures Spaced(words, rest) != ""
    ensures Spaced(words, rest)[|Spaced(words, rest)| - 1] == rest[|rest| - 1]
    ensures words != [] && words[0] != "" ==> Spaced(words, rest)[0] == words[0][0]
    decreases |words|
  {
    if words != [] { SpacedEnds(words[1..], rest); }
  }

  lemma OwnedScriptTrimmed(command: string)
    requires command != "" && !IsSpace(command[|command| - 1])
    ensures Trim(OwnedScript(command)) == OwnedScript(command)
  {
    SpacedEnds(GuardWords(), command);
    TrimFixesTrimmed(OwnedScript(command));
  }

  /** Built commands end in a digit or a quote, so nothing in them is trimmed away. */
  lemma HookCommandEnds(provider: string, version: nat, url: string)
    requires ProviderName(provider)
    ensures var c := BuildHookCommand(provider, version, url);
      c != "" && !IsSpace(c[|c| - 1]) && Trim(c) == c
  {
    var c := BuildHookCommand(provider, version, url);
    var rest := Itoa(version) + UrlTail(url);
    SpacedEnds(HookWords(provider), rest);
    if Trim(url) == "" {
      assert rest == Itoa(version);
    } else {
      QuoteTrimmedIs(Trim(url));
    }
    TrimFixesTrimmed(c);
  }

  // ----- recovering provider and version -----

  predicate DoubleDash(w: string, i: int) {
    0 <= i && i + 1 < |w| && w[i] == '-' && w[i + 1] == '-'
  }

  /** Not read as a flag, quotes or not. */
  ghost predicate Neutral(w: string) {
    forall i :: !DoubleDash(w, i)
  }

  ghost predicate AllNeutral(words: seq<string>) {
    forall i :: 0 <= i < |words| ==> Neutral(words[i])
  }

  lemma NeutralUnquoted(words: seq<string>)
    requires AllNeutral(words)
    ensures NoFlags(Unquoted(words))
  {
    forall i | 0 <= i < |words| ensures !DoubleDash(Unquote(words[i]), 0) {
      assert Neutral(words[i]);
      NeutralStart(words[i]);
    }
  }

  lemma NeutralStart(w: string)
    requires Neutral(w)
    ensures !DoubleDash(Unquote(w), 0)
  {
    var l := CutLeft(w, QUOTES);
    CutLeftIs(w, QUOTES);
    CutRightIs(l, QUOTES);
    assert !DoubleDash(w, |w| - |l|);
  }

  ghost predicate NoFlags(fields: seq<string>) {
    forall i :: 0 <= i < |fields| ==> !DoubleDash(fields[i], 0)
  }

  /** Field and flag differ in a character of the flag. */
  ghost predicate DiffersAt(field: string, flag: string, k: nat) {
    k < |flag| && (|field| <= k || field[k] != flag[k])
  }

  lemma NotAttached(field: string, flag: string, k: nat)
    requires DiffersAt(field, flag, k)
    ensures field != flag && Attached(field, flag) == None
  {
    assert (flag + "=")[k] == flag[k];
  }

  lemma SingleDash(field: string, flag: string)
    requires DoubleDash(flag, 0) && !DoubleDash(field, 0)
    ensures field != flag && Attached(field, flag) == None
  {
    if DiffersAt(field, flag, 0) {
      NotAttached(field, flag, 0);
    } else {
      NotAttached(field, flag, 1);
    }
  }

  lemma {:induction false} ScanSkips(before: seq<string>, more: seq<string>, flag: string)
    requires NoFlags(before) && DoubleDash(flag, 0)
    ensures FlagValue(before + more, flag) == FlagValue(more, flag)
    decreases |before|
  {
    if before == [] {
      assert before + more == more;
    } else {
      SingleDash(before[0], flag);
      ScanSkips(before[1..], more, flag);
      assert (before + more)[1..] == before[1..] + more;
    }
  }

  lemma FlagNames()
    ensures DoubleDash(PROVIDER_FLAG, 0) && |PROVIDER_FLAG| > 2 && PROVIDER_FLAG[2] == 'p'
    ensures DoubleDash(VERSION_FLAG, 0) && |VERSION_FLAG| > 2 && VERSION_FLAG[2] == 'h'
    ensures AllSafe(PROVIDER_FLAG) && AllSafe(VERSION_FLAG)
  {
  }

  lemma FlagPair(pf: string, provider: string, vf: string, last: string, after: seq<string>)
    requires !DoubleDash(provider, 0) && DoubleDash(pf, 0) && DoubleDash(vf, 0)
    requires |pf| > 2 && |vf| > 2 && pf[2] != vf[2]
    ensures FlagValue([pf, provider, vf, last] + after, pf) == Some(provider)
    ensures FlagValue([pf, provider, vf, last] + after, vf) == Some(last)
  {
    var fields := [pf, provider, vf, last] + after;
    NotAttached(pf, vf, 2);
    SingleDash(provider, vf);
    assert fields[1..] == [provider, vf, last] + after;
    assert fields[1..][1..] == [vf, last] + after;
    assert FlagValue(fields, vf) == FlagValue(fields[1..], vf);
    assert FlagValue(fields[1..], vf) == FlagValue([vf, last] + after, vf);
  }

  function HookStart(): seq<string> {
    ["flow", "hook", "agent-event"]
  }

  lemma HookNeutral()
    ensures AllNeutral(HookStart())
  {
  }

  lemma HookScan(before: seq<string>, provider: string, last: string, after: seq<string>)
    requires ProviderName(provider) && AllNeutral(before)
    ensures FlagValue(Unquoted(before + HookWords(provider) + ([last] + after)), PROVIDER_FLAG) == Some(provider)
    ensures FlagValue(Unquoted(before + HookWords(provider) + ([last] + after)), VERSION_FLAG) == Some(Unquote(last))
  {
    HookNeutral();
    FlagNames();
    FlagsUnquoted(provider);
    NeutralUnquoted(before);
    NeutralUnquoted(HookStart());
    assert HookWords(provider) == HookStart() + [PROVIDER_FLAG, provider, VERSION_FLAG];
    ScanPast(Unquote, before, HookStart(), provider, last, after, PROVIDER_FLAG, VERSION_FLAG);
  }

  lemma FlagsUnquoted(provider: string)
    requires ProviderName(provider)
    ensures Unquote(provider) == provider && !DoubleDash(provider, 0)
    ensures Unquote(PROVIDER_FLAG) == PROVIDER_FLAG && Unquote(VERSION_FLAG) == VERSION_FLAG
  {
    FlagNames();
    SafeIsTame(provider);
    SafeIsTame(PROVIDER_FLAG);
    SafeIsTame(VERSION_FLAG);
  }

  lemma ScanPast(f: string -> string, before: seq<string>, start: seq<string>, provider: string, last: string,
                 after: seq<string>, pf: string, vf: string)
    requires NoFlags(Mapped(f, before)) && NoFlags(Mapped(f, start)) && !DoubleDash(provider, 0)
    requires f(pf) == pf && f(vf) == vf && f(provider) == provider
    requires DoubleDash(pf, 0) && |pf| > 2 && DoubleDash(vf, 0) && |vf| > 2 && pf[2] != vf[2]
    ensures var fields := Mapped(f, before + (start + [pf, provider, vf]) + ([last] + after));
      FlagValue(fields, pf) == Some(provider) && FlagValue(fields, vf) == Some(f(last))
  {
    UnquotedParts(f, before, start, [pf, provider, vf], last, after);
    SkipToFlags(Mapped(f, before), Mapped(f, start), provider, f(last), Mapped(f, after), pf, vf);
    assert Mapped(f, [pf, provider, vf]) == [pf, provider, vf];
  }

  lemma UnquotedParts(f: string -> string, before: seq<string>, start: seq<string>, flags: seq<string>, last: string, after: seq<string>)
    ensures Mapped(f, before + (start + flags) + ([last] + after))
         == Mapped(f, before) + (Mapped(f, start) + Mapped(f, flags)) + ([f(last)] + Mapped(f, after))
  {
    MappedAppend(f, before + (start + flags), [last] + after);
    MappedAppend(f, before, start + flags);
    MappedAppend(f, start, flags);
    MappedAppend(f, [last], after);
  }

  lemma SkipToFlags(before: seq<string>, start: seq<string>, provider: string, last: string, after: seq<string>, pf: string, vf: string)
    requires NoFlags(before) && NoFlags(start) && !DoubleDash(provider, 0)
    requires DoubleDash(pf, 0) && |pf| > 2 && DoubleDash(vf, 0) && |vf| > 2 && pf[2] != vf[2]
    ensures var fields := before + (start + [pf, provider, vf]) + ([last] + after);
      FlagValue(fields, pf) == Some(provider) && FlagValue(fields, vf) == Some(last)
  {
    var flags := [pf, provider, vf, last] + after;
    FlagPair(pf, provider, vf, last, after);
    ScanSkips(before + start, flags, pf);
    ScanSkips(before + start, flags, vf);
    Regrouped(before, start, [pf, provider, vf], [last], after);
    assert [pf, provider, vf] + [last] == [pf, provider, vf, last];
  }

  lemma Regrouped<T>(a: seq<T>, b: seq<T>, c: seq<T>, d: seq<T>, e: seq<T>)
    ensures a + (b + c) + (d + e) == (a + b) + ((c + d) + e)
  {
  }

  /** How every built command reads: words, the hook words for p, and then a field that is
      the version number, possibly with a closing quote stuck to it. */
  ghost predicate HookShaped(c: string, p: string, n: nat) {
    exists before: seq<string>, last: string, text: string :: ShapedBy(c, p, n, before, last, text)
  }

  ghost predicate ShapedBy(c: string, p: string, n: nat, before: seq<string>, last: string, text: string) {
    && AllVisible(before) && AllNeutral(before)
    && Solid(last) && Unquote(last) == Itoa(n)
    && (text == "" || text[0] == ' ')
    && c == Spaced(before + HookWords(p), last + text)
  }

  lemma FieldsAfter(w: string, text: string)
    requires Solid(w) && (text == "" || text[0] == ' ')
    ensures Fields(w + text) == [w] + (if text == "" then [] else Fields(text[1..]))
  {
    SolidField(w, "", text);
    assert "" + w == w;
  }

  lemma ContainsMiddle(a: string, pat: string, b: string)
    ensures Contains(a + (pat + b), pat)
  {
    assert StartsAt(a + (pat + b), pat, |a|);
    ContainsAt(a + (pat + b), pat, |a|);
  }

  lemma {:induction false} SpacedRest(words: seq<string>, rest: string)
    ensures Spaced(words, rest) == Spaced(words, "") + rest
    decreases |words|
  {
    if words != [] { SpacedRest(words[1..], rest); }
  }

  lemma HookMarkerInside(before: seq<string>, p: string, rest: string)
    ensures Contains(Spaced(before + HookWords(p), rest), "hook agent-event")
  {
    assert HookWords(p) == ["flow", "hook", "agent-event"] + [PROVIDER_FLAG, p, VERSION_FLAG];
    assert "hook" + " " + "agent-event" == "hook agent-event";
    PairInside(before, "flow", "hook", "agent-event", [PROVIDER_FLAG, p, VERSION_FLAG], rest);
  }

  lemma PairInside(before: seq<string>, w: string, a: string, b: string, after: seq<string>, rest: string)
    ensures Contains(Spaced(before + ([w, a, b] + after), rest), a + " " + b)
  {
    var front, tail := before + [w], Spaced(after, rest);
    assert before + ([w, a, b] + after) == front + ([a, b] + after);
    SpacedSplit(front, [a, b] + after, rest);
    SpacedSplit([a, b], after, rest);
    assert [a, b][1..] == [b];
    assert Spaced([b], tail) == b + (" " + tail);
    assert Spaced([a, b], tail) == (a + " " + b) + (" " + tail);
    SpacedRest(front, (a + " " + b) + (" " + tail));
    ContainsMiddle(Spaced(front, ""), a + " " + b, " " + tail);
  }

  lemma ShapedRecovers(c: string, p: string, n: nat)
    requires HookShaped(c, p, n) && ProviderName(p) && n <= MAX_INT64
    ensures HookProvider(c) == p && HookVersionFromCommand(c) == n && Contains(c, "hook agent-event")
  {
    var before, last, text :| ShapedBy(c, p, n, before, last, text);
    HookWordsVisible(p);
    VisibleFields(before + HookWords(p), last + text);
    FieldsAfter(last, text);
    HookScan(before, p, last, if text == "" then [] else Fields(text[1..]));
    AtoiItoa(n);
    HookMarkerInside(before, p, last + text);
  }

  lemma BareShaped(p: string, n: nat, url: string)
    ensures HookShaped(BuildHookCommand(p, n, url), p, n)
  {
    SafeIsTame(Itoa(n));
    VisibleIsSolid(Itoa(n));
    assert [] + HookWords(p) == HookWords(p);
    assert ShapedBy(BuildHookCommand(p, n, url), p, n, [], Itoa(n), UrlTail(url));
  }

  // ----- the quoted form -----

  lemma {:induction false} ReplaceSpaced(words: seq<string>, rest: string, sub: string)
    requires forall i :: 0 <= i < |words| ==> '\'' !in words[i]
    ensures ReplaceChar(Spaced(words, rest), '\'', sub) == Spaced(words, ReplaceChar(rest, '\'', sub))
    decreases |words|
  {
    if words != [] {
      var tail := Spaced(words[1..], rest);
      ReplaceSpaced(words[1..], rest, sub);
      ReplaceAppend(words[0], " " + tail, '\'', sub);
      NoneToReplace(words[0], sub);
      ReplaceAppend(" ", tail, '\'', sub);
      NoneToReplace(" ", sub);
    }
  }

  lemma {:induction false} NoneToReplace(s: string, sub: string)
    requires '\'' !in s
    ensures ReplaceChar(s, '\'', sub) == s
    decreases |s|
  {
    if s != "" {
      NoneToReplace(s[1..], sub);
      assert [s[0]] + s[1..] == s;
    }
  }

  lemma {:induction false} SpacedAppend(words: seq<string>, rest: string, more: string)
    ensures Spaced(words, rest) + more == Spaced(words, rest + more)
    decreases |words|
  {
    if words != [] { SpacedAppend(words[1..], rest, more); }
  }

  lemma QuotedSpaced(words: seq<string>, rest: string, q: string, sub: string)
    requires words != [] && forall i :: 0 <= i < |words| ==> '\'' !in words[i]
    ensures q + ReplaceChar(Spaced(words, rest), '\'', sub) + q
         == Spaced([q + words[0]] + words[1..], ReplaceChar(rest, '\'', sub) + q)
  {
    var inner := ReplaceChar(rest, '\'', sub);
    ReplaceSpaced(words, rest, sub);
    SpacedAppend(words, inner, q);
    LedSpaced(words, inner + q, q);
    assert q + Spaced(words, inner) + q == q + (Spaced(words, inner) + q);
  }

  lemma LedSpaced(words: seq<string>, text: string, q: string)
    requires words != []
    ensures q + Spaced(words, text) == Spaced([q + words[0]] + words[1..], text)
  {
    var led := [q + words[0]] + words[1..];
    assert led[1..] == words[1..];
    var tail := Spaced(words[1..], text);
    assert q + (words[0] + (" " + tail)) == (q + words[0]) + (" " + tail);
  }

  /** The words in front of the hook words in the nested command line. */
  function OwnedWords(): seq<string> {
    ["sh", "-c"] + LedGuard()
  }

  function LedGuard(): seq<string> {
    ["'" + GuardWords()[0]] + GuardWords()[1..]
  }

  lemma GuardNeutral()
    ensures AllNeutral(GuardWords())
  {
  }

  lemma LedGuardTame()
    ensures AllVisible(LedGuard()) && AllNeutral(LedGuard())
  {
    var guard, led := GuardWords(), LedGuard();
    GuardNeutral();
    GuardWordsVisible();
    LedTame(guard, led);
  }

  lemma LedTame(guard: seq<string>, led: seq<string>)
    requires AllVisible(guard) && AllNeutral(guard) && guard != []
    requires led == ["'" + guard[0]] + guard[1..]
    ensures AllVisible(led) && AllNeutral(led)
  {
    assert Visible(guard[0]) && Neutral(guard[0]);
    forall i ensures !DoubleDash(led[0], i) {
      assert !DoubleDash(guard[0], i - 1);
    }
  }

  lemma OwnedWordsTame()
    ensures AllVisible(OwnedWords()) && AllNeutral(OwnedWords())
  {
    LedGuardTame();
  }

  lemma QuoteFreeWords(p: string)
    requires ProviderName(p)
    ensures forall i :: 0 <= i < |GuardWords() + HookWords(p)| ==> '\'' !in (GuardWords() + HookWords(p))[i]
  {
    SafeIsTame(p);
    var guard, hook := GuardWords(), HookWords(p);
    forall i | 0 <= i < |guard| ensures '\'' !in guard[i] {}
    forall i | 0 <= i < |hook| ensures '\'' !in hook[i] {}
  }

  lemma OwnedText(p: string, n: nat, url: string)
    requires ProviderName(p)
    ensures FlowOwnedOnlyCommand(BuildHookCommand(p, n, url)) ==
      Spaced(OwnedWords() + HookWords(p), ReplaceChar(Itoa(n) + UrlTail(url), '\'', "'\\''") + "'")
  {
    var command := BuildHookCommand(p, n, url);
    HookCommandEnds(p, n, url);
    OwnedScriptTrimmed(command);
    QuoteTrimmedIs(OwnedScript(command));
    QuoteFreeWords(p);
    assert ShellQuote(OwnedScript(command)) == "'" + ReplaceChar(OwnedScript(command), '\'', "'\\''") + "'";
    NestedText(["sh", "-c"], GuardWords(), HookWords(p), Itoa(n) + UrlTail(url), "'", "'\\''");
  }

  lemma NestedText(sh: seq<string>, guard: seq<string>, hook: seq<string>, rest: string, q: string, sub: string)
    requires guard != [] && forall i :: 0 <= i < |guard + hook| ==> '\'' !in (guard + hook)[i]
    ensures Spaced(sh, q + ReplaceChar(Spaced(guard, Spaced(hook, rest)), '\'', sub) + q)
         == Spaced(sh + ([q + guard[0]] + guard[1..]) + hook, ReplaceChar(rest, '\'', sub) + q)
  {
    var words := guard + hook;
    SpacedSplit(guard, hook, rest);
    QuotedSpaced(words, rest, q, sub);
    var led := [q + guard[0]] + guard[1..];
    assert [q + words[0]] + words[1..] == led + hook;
    SpacedSplit(sh, led + hook, ReplaceChar(rest, '\'', sub) + q);
    assert sh + (led + hook) == sh + led + hook;
  }

  lemma OwnedShaped(p: string, n: nat, url: string)
    requires ProviderName(p)
    ensures HookShaped(FlowOwnedOnlyCommand(BuildHookCommand(p, n, url)), p, n)
  {
    OwnedText(p, n, url);
    OwnedWordsTame();
    SafeIsTame(Itoa(n));
    VisibleIsSolid(Itoa(n));
    ReplaceAppend(Itoa(n), UrlTail(url), '\'', "'\\''");
    NoneToReplace(Itoa(n), "'\\''");
    var text := ReplaceChar(UrlTail(url), '\'', "'\\''");
    if Trim(url) == "" {
      NumberWithQuote(n);
      assert text == "" by { NoneToReplace("", "'\\''"); }
    } else {
      assert UrlTail(url)[0] == ' ';
      assert text[0] == ' ';
    }
    NestedShaped(FlowOwnedOnlyCommand(BuildHookCommand(p, n, url)), p, n, OwnedWords(), Itoa(n), text, "'");
  }

  lemma NestedShaped(c: string, p: string, n: nat, before: seq<string>, number: string, text: string, q: string)
    requires AllVisible(before) && AllNeutral(before)
    requires Solid(number) && Unquote(number) == Itoa(n)
    requires text == "" ==> Solid(number + q) && Unquote(number + q) == Itoa(n)
    requires text != "" ==> text[0] == ' '
    requires c == Spaced(before + HookWords(p), number + text + q)
    ensures HookShaped(c, p, n)
  {
    if text == "" {
      assert number + text + q == (number + q) + "";
      assert ShapedBy(c, p, n, before, number + q, "");
    } else {
      assert number + text + q == number + (text + q);
      assert ShapedBy(c, p, n, before, number, text + q);
    }
  }

  lemma NumberWithQuote(n: nat)
    ensures Solid(Itoa(n) + "'") && Cut(Itoa(n) + "'", QUOTES) == Itoa(n)
  {
    var w := Itoa(n) + "'";
    SafeIsTame(Itoa(n));
    VisibleIsSolid(Itoa(n));
    assert CutLeft(w, QUOTES) == w;
    assert w[..|w| - 1] == Itoa(n);
    assert CutRight(w, QUOTES) == CutRight(Itoa(n), QUOTES);
    assert Safe(Itoa(n)[|Itoa(n)| - 1]);
  }

  /** From every built command, bare or nested and whatever its URL, the provider and the
      stamped version are read back. */
  lemma BuiltCommandsReadBack(p: string, n: nat, url: string)
    requires ProviderName(p) && n <= MAX_INT64
    ensures var bare := BuildHookCommand(p, n, url);
      && HookProvider(bare) == p && HookVersionFromCommand(bare) == n
      && HookProvider(FlowOwnedOnlyCommand(bare)) == p && HookVersionFromCommand(FlowOwnedOnlyCommand(bare)) == n
  {
    BareShaped(p, n, url);
    OwnedShaped(p, n, url);
    ShapedRecovers(BuildHookCommand(p, n, url), p, n);
    ShapedRecovers(FlowOwnedOnlyCommand(BuildHookCommand(p, n, url)), p, n);
  }

  /** The two forms of installed command. */
  function Installed(owned: bool, p: string, n: nat, url: string): string {
    if owned then FlowOwnedOnlyCommand(BuildHookCommand(p, n, url)) else BuildHookCommand(p, n, url)
  }

  lemma InstalledFacts(owned: bool, p: string, n: nat, url: string)
    requires ProviderName(p) && n <= MAX_INT64
    ensures var c := Installed(owned, p, n, url);
      Trim(c) == c && c != "" && HookProvider(c) == p && Contains(c, "hook agent-event")
  {
    HookCommandEnds(p, n, url);
    if owned {
      OwnedShaped(p, n, url);
      OwnedTrimmed(BuildHookCommand(p, n, url));
    } else {
      BareShaped(p, n, url);
    }
    ShapedRecovers(Installed(owned, p, n, url), p, n);
  }

  lemma OwnedTrimmed(command: string)
    ensures Trim(FlowOwnedOnlyCommand(command)) == FlowOwnedOnlyCommand(command) != ""
  {
    var quoted := QuoteTrimmed(OwnedScript(command));
    QuoteTrimmedIs(OwnedScript(command));
    SpacedEnds(["sh", "-c"], quoted);
    TrimFixesTrimmed(FlowOwnedOnlyCommand(command));
  }

  /** The installer takes one installed command for another version of the other exactly when
      they belong to the same provider, whatever their versions, URLs and forms. */
  lemma SameManagedExactly(o1: bool, p1: string, n1: nat, u1: string, o2: bool, p2: string, n2: nat, u2: string)
    requires ProviderName(p1) && ProviderName(p2) && n1 <= MAX_INT64 && n2 <= MAX_INT64
    ensures SameManagedAgentHookCommand(Installed(o1, p1, n1, u1), Installed(o2, p2, n2, u2)) <==> p1 == p2
  {
    InstalledFacts(o1, p1, n1, u1);
    InstalledFacts(o2, p2, n2, u2);
  }
}
