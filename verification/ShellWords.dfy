/** Quoting for the shell and for AppleScript, against independent readers of both.
    The reader of shell text follows POSIX.1-2017 XCU, Shell Command Language, sections 2.2
    to 2.2.2: it knows the backslash, single quotes, blanks and the operators ; and &&, and
    refuses every other character that section lists as special when it stands unquoted. */
module ShellWords {
  import opened Text

  datatype Token = Word(text: string) | Operator(op: string)

  /** Between words, inside a word, or inside single quotes within a word. */
  datatype Mode = Between | InWord(word: string) | InQuote(word: string)

  /** Section 2.2: characters that keep no literal meaning outside quotes. */
  predicate Special(c: char) {
    || c == '|' || c == '&' || c == ';' || c == '<' || c == '>' || c == '(' || c == ')' || c == '$'
    || c == '`' || c == '\\' || c == '"' || c == '\'' || c == ' ' || c == '\t' || c == '\n'
    || c == '*' || c == '?' || c == '[' || c == '#' || c == '~'
  }

  /** The word so far; InQuote is not asked. */
  function WordOf(m: Mode): string {
    match m
    case Between => ""
    case InWord(w) => w
    case InQuote(w) => w
  }

  function Emitted(m: Mode): seq<Token> {
    if m.InWord? then [Word(m.word)] else []
  }

  function Prepend(tokens: seq<Token>, rest: Option<seq<Token>>): Option<seq<Token>> {
    if rest.None? then None else Some(tokens + rest.value)
  }

  /** The tokens of s read from mode m, or None for text this reader refuses. */
  function Lex(s: string, m: Mode): Option<seq<Token>>
    decreases |s|
  {
    if s == "" then (if m.InQuote? then None else Some(Emitted(m)))
    else
      var c, rest := s[0], s[1..];
      if m.InQuote? then
        if c == '\'' then Lex(rest, InWord(m.word)) else Lex(rest, InQuote(m.word + [c]))
      else if c == ' ' || c == '\t' then Prepend(Emitted(m), Lex(rest, Between))
      else if c == '\'' then Lex(rest, InQuote(WordOf(m)))
      else if c == '\\' then
        if rest == "" then None
        else if rest[0] == '\n' then Lex(rest[1..], m)
        else Lex(rest[1..], InWord(WordOf(m) + [rest[0]]))
      else if c == ';' then Prepend(Emitted(m) + [Operator(";")], Lex(rest, Between))
      else if c == '&' && rest != "" && rest[0] == '&' then
        Prepend(Emitted(m) + [Operator("&&")], Lex(rest[1..], Between))
      else if Special(c) then None
      else Lex(rest, InWord(WordOf(m) + [c]))
  }

  /** strings.ReplaceAll of one character. */
  function ReplaceChar(s: string, c: char, sub: string): string {
    if s == "" then "" else (if s[0] == c then sub else [s[0]]) + ReplaceChar(s[1..], c, sub)
  }

  // ----- shell quoting -----

  /** iterm.ShellQuote and ghostty.ShellQuote. */
  function ShellQuote(s: string): string {
    "'" + ReplaceChar(s, '\'', "'\\''") + "'"
  }

  lemma {:induction false} QuotedBody(s: string, w: string, rest: string)
    ensures Lex(ReplaceChar(s, '\'', "'\\''") + "'" + rest, InQuote(w)) == Lex(rest, InWord(w + s))
    decreases |s|
  {
    var text := ReplaceChar(s, '\'', "'\\''") + "'" + rest;
    if s == "" {
      assert text == "'" + rest;
      assert text[1..] == rest;
      assert w + s == w;
    } else {
      var tail := ReplaceChar(s[1..], '\'', "'\\''") + "'" + rest;
      if s[0] == '\'' {
        assert text == "'\\''" + tail;
        QuoteBreak(tail, w);
      } else {
        assert text == [s[0]] + tail;
        assert text[1..] == tail;
      }
      QuotedBody(s[1..], w + [s[0]], rest);
      assert w + [s[0]] + s[1..] == w + s;
    }
  }

  /** Leaving the quotes, an escaped quote, and entering them again. */
  lemma QuoteBreak(tail: string, w: string)
    ensures Lex("'\\''" + tail, InQuote(w)) == Lex(tail, InQuote(w + "'"))
  {
    var t0 := "'\\''" + tail;
    assert t0[1..] == "\\''" + tail;
    var t1 := "\\''" + tail;
    assert t1[1..] == "''" + tail;
    var t2 := "''" + tail;
    assert t2[1..] == "'" + tail;
    var t3 := "'" + tail;
    assert t3[1..] == tail;
    assert Lex(t0, InQuote(w)) == Lex(t1, InWord(w));
    assert Lex(t1, InWord(w)) == Lex(t3, InWord(w + ['\'']));
    assert Lex(t3, InWord(w + ['\''])) == Lex(tail, InQuote(w + ['\'']));
  }

  /** A quoted string contributes exactly its own text to the word it stands in. */
  lemma QuoteReads(s: string, m: Mode, rest: string)
    requires !m.InQuote?
    ensures Lex(ShellQuote(s) + rest, m) == Lex(rest, InWord(WordOf(m) + s))
  {
    var text := ShellQuote(s) + rest;
    var body := ReplaceChar(s, '\'', "'\\''") + "'" + rest;
    assert text == "'" + body;
    assert text[1..] == body;
    QuotedBody(s, WordOf(m), rest);
  }

  /** The characters codex.go's shellQuoteArg leaves bare. */
  predicate Safe(c: char) {
    'a' <= c <= 'z' || 'A' <= c <= 'Z' || '0' <= c <= '9' || c == '@' || c == '%' || c == '_' || c == '+'
    || c == '=' || c == ':' || c == ',' || c == '.' || c == '/' || c == '-'
  }

  predicate AllSafe(s: string) {
    forall i :: 0 <= i < |s| ==> Safe(s[i])
  }

  predicate AllPlain(s: string) {
    forall i :: 0 <= i < |s| ==> !Special(s[i])
  }

  lemma {:induction false} PlainReads(s: string, m: Mode, rest: string)
    requires AllPlain(s) && s != "" && !m.InQuote?
    ensures Lex(s + rest, m) == Lex(rest, InWord(WordOf(m) + s))
    decreases |s|
  {
    assert (s + rest)[1..] == s[1..] + rest;
    assert !Special(s[0]);
    if |s| == 1 {
      assert s == [s[0]] && s[1..] + rest == rest;
    } else {
      PlainReads(s[1..], InWord(WordOf(m) + [s[0]]), rest);
      assert WordOf(m) + [s[0]] + s[1..] == WordOf(m) + s;
    }
  }

  /** codex.go's shellQuoteArg. */
  function QuoteArg(arg: string): string {
    if arg != "" && AllSafe(arg) then arg else ShellQuote(arg)
  }

  lemma ArgReads(arg: string, m: Mode, rest: string)
    requires !m.InQuote?
    ensures Lex(QuoteArg(arg) + rest, m) == Lex(rest, InWord(WordOf(m) + arg))
  {
    if arg != "" && AllSafe(arg) {
      PlainReads(arg, m, rest);
    } else {
      QuoteReads(arg, m, rest);
    }
  }

  function Words(texts: seq<string>): seq<Token> {
    seq(|texts|, i requires 0 <= i < |texts| => Word(texts[i]))
  }

  /** Every argument quoted, each after a blank. */
  function QuotedTail(args: seq<string>): string {
    if args == [] then "" else " " + QuoteArg(args[0]) + QuotedTail(args[1..])
  }

  /** A blank ends the word before it. */
  lemma BlankReads(m: Mode, rest: string)
    requires !m.InQuote?
    ensures Lex(" " + rest, m) == Prepend(Emitted(m), Lex(rest, Between))
  {
    assert (" " + rest)[1..] == rest;
  }

  lemma {:induction false} TailReads(args: seq<string>, w: string)
    ensures Lex(QuotedTail(args), InWord(w)) == Some([Word(w)] + Words(args))
    decreases |args|
  {
    if args == [] {
      assert [Word(w)] + Words(args) == [Word(w)];
    } else {
      TailReads(args[1..], args[0]);
      BlankThenArg(w, args[0], QuotedTail(args[1..]));
      assert Words(args) == [Word(args[0])] + Words(args[1..]);
    }
  }

  lemma BlankThenArg(w: string, arg: string, rest: string)
    ensures Lex(" " + QuoteArg(arg) + rest, InWord(w)) == Prepend([Word(w)], Lex(rest, InWord(arg)))
  {
    assert " " + QuoteArg(arg) + rest == " " + (QuoteArg(arg) + rest);
    BlankReads(InWord(w), QuoteArg(arg) + rest);
    ArgReads(arg, Between, rest);
    assert "" + arg == arg;
  }

  function Joined(parts: seq<string>): string {
    if parts == [] then "" else if |parts| == 1 then parts[0] else parts[0] + " " + Joined(parts[1..])
  }

  lemma {:induction false} JoinedMore(parts: seq<string>, more: string)
    requires parts != []
    ensures Joined(parts + [more]) == Joined(parts) + " " + more
    decreases |parts|
  {
    if |parts| > 1 {
      JoinedMore(parts[1..], more);
      assert (parts + [more])[1..] == parts[1..] + [more];
    } else {
      assert (parts + [more])[1..] == [more];
    }
  }

  lemma {:induction false} TailMore(args: seq<string>, more: string)
    ensures QuotedTail(args + [more]) == QuotedTail(args) + " " + QuoteArg(more)
    decreases |args|
  {
    if args == [] {
      assert (args + [more])[1..] == [];
    } else {
      TailMore(args[1..], more);
      assert (args + [more])[1..] == args[1..] + [more];
    }
  }

  lemma ArgAloneReads(arg: string)
    ensures Lex(QuoteArg(arg), Between) == Some([Word(arg)])
  {
    ArgReads(arg, Between, "");
    assert QuoteArg(arg) + "" == QuoteArg(arg) && "" + arg == arg;
  }

  lemma CommandReads(bin: string, args: seq<string>)
    requires bin != "" && AllPlain(bin)
    ensures Lex(bin + QuotedTail(args), Between) == Some([Word(bin)] + Words(args))
  {
    PlainReads(bin, Between, QuotedTail(args));
    assert "" + bin == bin;
    TailReads(args, bin);
  }

  method ShellQuoteArg(arg: string) returns (r: string)
    ensures r == QuoteArg(arg)
    ensures Lex(r, Between) == Some([Word(arg)])
  {
    ArgAloneReads(arg);
    r := QuoteUnlessSafe(arg);
  }

  method QuoteUnlessSafe(arg: string) returns (r: string)
    ensures r == QuoteArg(arg)
  {
    if arg != "" {
      var safe := true;
      var i := 0;
      while i < |arg| && safe
        invariant 0 <= i <= |arg|
        invariant safe ==> forall k :: 0 <= k < i ==> Safe(arg[k])
        invariant !safe ==> !AllSafe(arg)
      {
        if !Safe(arg[i]) { safe := false; }
        i := i + 1;
      }
      if safe { return arg; }
    }
    return ShellQuote(arg);
  }

  lemma NextPart(bin: string, args: seq<string>, i: nat, parts: seq<string>)
    requires i < |args| && parts != [] && Joined(parts) == bin + QuotedTail(args[..i])
    ensures Joined(parts + [QuoteArg(args[i])]) == bin + QuotedTail(args[..i + 1])
  {
    assert args[..i + 1] == args[..i] + [args[i]];
    TailMore(args[..i], args[i]);
    Glue(bin, QuotedTail(args[..i]), QuoteArg(args[i]), parts);
  }

  lemma Glue(bin: string, tail: string, q: string, parts: seq<string>)
    requires parts != [] && Joined(parts) == bin + tail
    ensures Joined(parts + [q]) == bin + (tail + " " + q)
  {
    JoinedMore(parts, q);
    assert bin + tail + " " + q == bin + (tail + " " + q);
  }

  /** agentShellCommand: for a bare program name, the shell reads back exactly that name and
      then every argument, whatever the arguments contain. */
  method AgentShellCommand(bin: string, args: seq<string>) returns (r: string)
    requires bin != "" && AllPlain(bin)
    ensures Lex(r, Between) == Some([Word(bin)] + Words(args))
  {
    r := JoinQuoted(bin, args);
    CommandReads(bin, args);
  }

  method JoinQuoted(bin: string, args: seq<string>) returns (r: string)
    ensures r == bin + QuotedTail(args)
  {
    var parts := [bin];
    var i := 0;
    assert args[..0] == [];
    while i < |args|
      invariant 0 <= i <= |args|
      invariant parts != [] && Joined(parts) == bin + QuotedTail(args[..i])
    {
      var q := QuoteUnlessSafe(args[i]);
      NextPart(bin, args, i, parts);
      parts := parts + [q];
      i := i + 1;
    }
    assert args[..i] == args;
    r := Joined(parts);
  }

  // ----- AppleScript -----

  function EscapeAppleScript(s: string): string {
    ReplaceChar(ReplaceChar(s, '\\', "\\\\"), '"', "\\\"")
  }

  /** Reads a string literal up to its closing quote; None if it does not close or uses an
      escape other than \\ and \". */
  function ReadLiteral(s: string): Option<(string, string)>
    decreases |s|
  {
    if s == "" then None
    else if s[0] == '"' then Some(("", s[1..]))
    else if s[0] == '\\' then
      if |s| > 1 && (s[1] == '\\' || s[1] == '"') then
        var r := ReadLiteral(s[2..]);
        if r.None? then None else Some(([s[1]] + r.value.0, r.value.1))
      else None
    else
      var r := ReadLiteral(s[1..]);
      if r.None? then None else Some(([s[0]] + r.value.0, r.value.1))
  }

  lemma {:induction false} ReplaceAppend(a: string, b: string, c: char, sub: string)
    ensures ReplaceChar(a + b, c, sub) == ReplaceChar(a, c, sub) + ReplaceChar(b, c, sub)
    decreases |a|
  {
    if a == "" {
      assert a + b == b;
    } else {
      var head := if a[0] == c then sub else [a[0]];
      var x, y := ReplaceChar(a[1..], c, sub), ReplaceChar(b, c, sub);
      ReplaceAppend(a[1..], b, c, sub);
      assert (a + b)[1..] == a[1..] + b;
      assert ReplaceChar(a + b, c, sub) == head + (x + y);
      assert head + (x + y) == (head + x) + y;
    }
  }

  lemma EscapeCons(c: char, s: string)
    ensures EscapeAppleScript([c] + s) ==
      (if c == '\\' then "\\\\" else if c == '"' then "\\\"" else [c]) + EscapeAppleScript(s)
  {
    assert ([c] + s)[1..] == s;
    var head := if c == '\\' then "\\\\" else [c];
    ReplaceAppend(head, ReplaceChar(s, '\\', "\\\\"), '"', "\\\"");
    if c == '\\' {
      assert head[1..] == "\\" && "\\"[1..] == "";
      assert ReplaceChar("", '"', "\\\"") == "";
      assert ReplaceChar("\\", '"', "\\\"") == "\\";
      assert ReplaceChar(head, '"', "\\\"") == "\\\\";
    } else {
      assert [c][1..] == "";
      assert ReplaceChar(head, '"', "\\\"") == if c == '"' then "\\\"" else [c];
    }
  }

  /** Reading an escaped literal stops at the closing quote and gives back the original. */
  lemma {:induction false} EscapeReadsBack(s: string, rest: string)
    ensures ReadLiteral(EscapeAppleScript(s) + "\"" + rest) == Some((s, rest))
    decreases |s|
  {
    if s == "" {
      assert EscapeAppleScript(s) + "\"" + rest == "\"" + rest;
      assert ("\"" + rest)[1..] == rest;
    } else {
      EscapeCons(s[0], s[1..]);
      assert [s[0]] + s[1..] == s;
      EscapeReadsBack(s[1..], rest);
      var tail := EscapeAppleScript(s[1..]) + "\"" + rest;
      var head := if s[0] == '\\' then "\\\\" else if s[0] == '"' then "\\\"" else [s[0]];
      var text := EscapeAppleScript(s) + "\"" + rest;
      assert text == head + tail;
      assert text[|head|..] == tail;
    }
  }

  // ----- the Ghostty tab -----

  /** A word, operator or assignment of the typed line, each followed by one blank. */
  datatype Piece = Bare(word: string) | Quoted(text: string) | Op(op: string) | Assign(key: string, value: string)

  predicate Readable(p: Piece) {
    match p
    case Bare(w) => w != "" && AllPlain(w)
    case Quoted(_) => true
    case Op(op) => op == ";" || op == "&&"
    case Assign(key, _) => AllPlain(key)
  }

  function Written(p: Piece): string {
    match p
    case Bare(w) => w
    case Quoted(text) => ShellQuote(text)
    case Op(op) => op
    case Assign(key, value) => key + "=" + ShellQuote(value)
  }

  function Meant(p: Piece): Token {
    match p
    case Bare(w) => Word(w)
    case Quoted(text) => Word(text)
    case Op(op) => Operator(op)
    case Assign(key, value) => Word(key + "=" + value)
  }

  function Line(pieces: seq<Piece>, rest: string): string {
    if pieces == [] then rest else Written(pieces[0]) + (" " + Line(pieces[1..], rest))
  }

  function Meaning(pieces: seq<Piece>): seq<Token> {
    seq(|pieces|, i requires 0 <= i < |pieces| => Meant(pieces[i]))
  }

  lemma PrependTwice(a: seq<Token>, b: seq<Token>, rest: Option<seq<Token>>)
    ensures Prepend(a, Prepend(b, rest)) == Prepend(a + b, rest)
  {
    if rest.Some? { assert a + (b + rest.value) == a + b + rest.value; }
  }

  lemma PieceReads(p: Piece, rest: string)
    requires Readable(p)
    ensures Lex(Written(p) + (" " + rest), Between) == Prepend([Meant(p)], Lex(rest, Between))
  {
    var tail := " " + rest;
    match p
    case Bare(w) =>
      PlainReads(w, Between, tail);
      assert "" + w == w;
      BlankReads(InWord(w), rest);
    case Quoted(text) =>
      QuoteReads(text, Between, tail);
      assert "" + text == text;
      BlankReads(InWord(text), rest);
    case Op(op) => OperatorReads(op, tail); BlankReads(Between, rest); EmptyPrepend(Lex(rest, Between));
    case Assign(key, value) =>
      assert Written(p) + tail == (key + "=") + (ShellQuote(value) + tail);
      PlainReads(key + "=", Between, ShellQuote(value) + tail);
      assert "" + (key + "=") == key + "=";
      QuoteReads(value, InWord(key + "="), tail);
      BlankReads(InWord(key + "=" + value), rest);
  }

  lemma EmptyPrepend(rest: Option<seq<Token>>)
    ensures Prepend([], rest) == rest
  {
    if rest.Some? { assert [] + rest.value == rest.value; }
  }

  lemma OperatorReads(op: string, rest: string)
    requires op == ";" || op == "&&"
    ensures Lex(op + rest, Between) == Prepend([Operator(op)], Lex(rest, Between))
  {
    assert Emitted(Between) + [Operator(op)] == [Operator(op)];
    if op == ";" {
      assert (op + rest)[1..] == rest;
    } else {
      assert (op + rest)[1..] == "&" + rest;
      assert ("&" + rest)[1..] == rest;
    }
  }

  lemma {:induction false} LineReads(pieces: seq<Piece>, rest: string)
    requires forall p :: p in pieces ==> Readable(p)
    ensures Lex(Line(pieces, rest), Between) == Prepend(Meaning(pieces), Lex(rest, Between))
    decreases |pieces|
  {
    if pieces == [] {
      EmptyPrepend(Lex(rest, Between));
    } else {
      PieceReads(pieces[0], Line(pieces[1..], rest));
      LineReads(pieces[1..], rest);
      PrependTwice([Meant(pieces[0])], Meaning(pieces[1..]), Lex(rest, Between));
      assert Meaning(pieces) == [Meant(pieces[0])] + Meaning(pieces[1..]);
    }
  }

  const PRINTF_FORMAT := "\\033]2;%s\\007"

  /** One KEY=value assignment word per environment variable. */
  function EnvPrefix(env: seq<(string, string)>): string {
    if env == [] then "" else env[0].0 + "=" + ShellQuote(env[0].1) + " " + EnvPrefix(env[1..])
  }

  function EnvPieces(env: seq<(string, string)>): seq<Piece> {
    if env == [] then [] else [Assign(env[0].0, env[0].1)] + EnvPieces(env[1..])
  }

  /** The line SpawnTab types, with the environment in sorted key order; the quoted format is
      a literal in the source (see FormatIsLiteral). */
  function TypedLine(title: string, cwd: string, command: string, env: seq<(string, string)>): string {
    " " + ("printf" + (" " + (ShellQuote(PRINTF_FORMAT) + (" " + (ShellQuote(title) + (" " + (";" + (" "
      + ("cd" + (" " + (ShellQuote(cwd) + (" " + ("&&" + (" " + (EnvPrefix(env) + command)))))))))))))))
  }

  lemma FormatIsLiteral()
    ensures ShellQuote(PRINTF_FORMAT) == "'" + PRINTF_FORMAT + "'"
  {
    NoQuoteUnchanged(PRINTF_FORMAT);
  }

  /** What the new tab is meant to run before the command: print the title, change
      directory, and set the environment for it. */
  function TabPieces(title: string, cwd: string, env: seq<(string, string)>): seq<Piece> {
    [Bare("printf"), Quoted(PRINTF_FORMAT), Quoted(title), Op(";"), Bare("cd"), Quoted(cwd), Op("&&")] + EnvPieces(env)
  }

  lemma {:induction false} EnvLine(env: seq<(string, string)>, rest: string)
    ensures Line(EnvPieces(env), rest) == EnvPrefix(env) + rest
    decreases |env|
  {
    if env != [] {
      var (key, value) := env[0];
      EnvLine(env[1..], rest);
      var pieces := EnvPieces(env);
      assert pieces[1..] == EnvPieces(env[1..]);
      assert Line(pieces, rest) == (key + "=" + ShellQuote(value)) + (" " + (EnvPrefix(env[1..]) + rest));
      assert EnvPrefix(env) == (key + "=" + ShellQuote(value)) + " " + EnvPrefix(env[1..]);
    }
  }

  lemma LineCons(p: Piece, pieces: seq<Piece>, rest: string)
    ensures Line([p] + pieces, rest) == Written(p) + (" " + Line(pieces, rest))
  {
    assert ([p] + pieces)[1..] == pieces;
  }

  lemma {:induction false} NoQuoteUnchanged(s: string)
    requires '\'' !in s
    ensures ReplaceChar(s, '\'', "'\\''") == s
    decreases |s|
  {
    if s != "" {
      NoQuoteUnchanged(s[1..]);
      assert [s[0]] + s[1..] == s;
    }
  }

  lemma TwoPieces(a: Piece, b: Piece, more: seq<Piece>, rest: string)
    ensures Line([a, b] + more, rest) == Written(a) + (" " + (Written(b) + (" " + Line(more, rest))))
  {
    LineCons(b, more, rest);
    LineCons(a, [b] + more, rest);
    assert [a, b] + more == [a] + ([b] + more);
  }

  lemma SevenPieces(a: Piece, b: Piece, c: Piece, d: Piece, e: Piece, f: Piece, g: Piece, more: seq<Piece>, rest: string)
    ensures Line([a, b, c, d, e, f, g] + more, rest) ==
      Written(a) + (" " + (Written(b) + (" " + (Written(c) + (" " + (Written(d) + (" " + (Written(e) + (" "
        + (Written(f) + (" " + (Written(g) + (" " + Line(more, rest))))))))))))))
  {
    LineCons(g, more, rest);
    TwoPieces(e, f, [g] + more, rest);
    TwoPieces(c, d, [e, f] + ([g] + more), rest);
    TwoPieces(a, b, [c, d] + ([e, f] + ([g] + more)), rest);
    SevenSplit(a, b, c, d, e, f, g, more);
  }

  lemma SevenSplit<T>(a: T, b: T, c: T, d: T, e: T, f: T, g: T, more: seq<T>)
    ensures [a, b, c, d, e, f, g] + more == [a, b] + ([c, d] + ([e, f] + ([g] + more)))
  {
  }

  lemma TypedLineIsTabLine(title: string, cwd: string, command: string, env: seq<(string, string)>)
    ensures TypedLine(title, cwd, command, env) == " " + Line(TabPieces(title, cwd, env), command)
  {
    EnvLine(env, command);
    SevenPieces(Bare("printf"), Quoted(PRINTF_FORMAT), Quoted(title), Op(";"), Bare("cd"), Quoted(cwd), Op("&&"),
                EnvPieces(env), command);
  }

  lemma {:induction false} EnvReadable(env: seq<(string, string)>)
    requires forall i :: 0 <= i < |env| ==> AllPlain(env[i].0)
    ensures forall p :: p in EnvPieces(env) ==> Readable(p)
    decreases |env|
  {
    if env != [] { EnvReadable(env[1..]); }
  }

  lemma TabReadable(title: string, cwd: string, env: seq<(string, string)>)
    requires forall i :: 0 <= i < |env| ==> AllPlain(env[i].0)
    ensures forall p :: p in TabPieces(title, cwd, env) ==> Readable(p)
  {
    EnvReadable(env);
    BareWords();
    var fixed := [Bare("printf"), Quoted(PRINTF_FORMAT), Quoted(title), Op(";"), Bare("cd"), Quoted(cwd), Op("&&")];
    forall i | 0 <= i < |fixed| ensures Readable(fixed[i]) {}
  }

  lemma BareWords()
    ensures AllPlain("printf") && AllPlain("cd")
  {
  }

  /** End to end: AppleScript reads the literal that SpawnTab embeds back to the typed line,
      and the shell reads that line as the title command, the directory change and the
      environment, followed by exactly what it would read from the command alone. */
  lemma SpawnTabDelivers(title: string, cwd: string, command: string, env: seq<(string, string)>, rest: string)
    requires forall i :: 0 <= i < |env| ==> AllPlain(env[i].0)
    ensures ReadLiteral(EscapeAppleScript(TypedLine(title, cwd, command, env)) + "\"" + rest)
         == Some((TypedLine(title, cwd, command, env), rest))
    ensures Lex(TypedLine(title, cwd, command, env), Between)
         == Prepend(Meaning(TabPieces(title, cwd, env)), Lex(command, Between))
  {
    var line, pieces := TypedLine(title, cwd, command, env), TabPieces(title, cwd, env);
    EscapeReadsBack(line, rest);
    TabReadable(title, cwd, env);
    TypedLineIsTabLine(title, cwd, command, env);
    LineAfterBlank(pieces, command);
  }

  /** One assignment word per environment variable. */
  function EnvTokens(env: seq<(string, string)>): seq<Token> {
    seq(|env|, i requires 0 <= i < |env| => Word(env[i].0 + "=" + env[i].1))
  }

  lemma {:induction false} EnvMeaning(env: seq<(string, string)>)
    ensures Meaning(EnvPieces(env)) == EnvTokens(env)
    decreases |env|
  {
    if env != [] {
      EnvMeaning(env[1..]);
      var pieces := EnvPieces(env);
      assert pieces[1..] == EnvPieces(env[1..]);
      assert Meaning(pieces) == [Meant(pieces[0])] + Meaning(pieces[1..]);
      assert EnvTokens(env) == [Word(env[0].0 + "=" + env[0].1)] + EnvTokens(env[1..]);
    }
  }

  /** The same, token by token: printf with the format and the title; cd to the directory; and, if
      that works, the assignments and then the command's own tokens. */
  lemma SpawnTabReads(title: string, cwd: string, command: string, env: seq<(string, string)>)
    requires forall i :: 0 <= i < |env| ==> AllPlain(env[i].0)
    ensures Lex(TypedLine(title, cwd, command, env), Between) ==
      Prepend([Word("printf"), Word("\\033]2;%s\\007"), Word(title), Operator(";"), Word("cd"), Word(cwd), Operator("&&")]
              + EnvTokens(env), Lex(command, Between))
  {
    SpawnTabDelivers(title, cwd, command, env, "");
    EnvMeaning(env);
    TabMeaning(title, cwd, env);
  }

  lemma TabMeaning(title: string, cwd: string, env: seq<(string, string)>)
    ensures Meaning(TabPieces(title, cwd, env)) ==
      [Word("printf"), Word(PRINTF_FORMAT), Word(title), Operator(";"), Word("cd"), Word(cwd), Operator("&&")] + Meaning(EnvPieces(env))
  {
    var front := [Bare("printf"), Quoted(PRINTF_FORMAT), Quoted(title), Op(";"), Bare("cd"), Quoted(cwd), Op("&&")];
    MeaningAppend(front, EnvPieces(env));
    assert Meaning(front) == [Word("printf"), Word(PRINTF_FORMAT), Word(title), Operator(";"), Word("cd"), Word(cwd), Operator("&&")];
  }

  lemma MeaningAppend(a: seq<Piece>, b: seq<Piece>)
    ensures Meaning(a + b) == Meaning(a) + Meaning(b)
  {
  }

  lemma LineAfterBlank(pieces: seq<Piece>, command: string)
    requires forall p :: p in pieces ==> Readable(p)
    ensures Lex(" " + Line(pieces, command), Between) == Prepend(Meaning(pieces), Lex(command, Between))
  {
    LineReads(pieces, command);
    BlankReads(Between, Line(pieces, command));
    EmptyPrepend(Lex(Line(pieces, command), Between));
  }
}
