/** Reading the script inside a nested hook command. The reader of ShellWords is extended by
    what the guard in front of the command uses: double quotes with their escapes (section
    2.2.3 of POSIX.1-2017 XCU, Shell Command Language), the parameter expansion ${NAME:-}
    (section 2.6.2), the control operator || (section 2.10.2), and a lone [, which section 2.13.1
    leaves literal when no ] closes it. */
module ShellScript {
  import opened Text
  import opened ShellWords
  import opened HookCommands

  /** As before, or inside double quotes, or inside the name of an expansion within them. */
  datatype ScriptMode = Plain(m: Mode) | InDouble(word: string) | InParam(word: string, name: string)

  /** The value of each shell variable, "" when it is unset. */
  type Environment = string -> string

  predicate NameChar(c: char) {
    'a' <= c <= 'z' || 'A' <= c <= 'Z' || '0' <= c <= '9' || c == '_'
  }

  predicate Escapable(c: char) {
    c == '$' || c == '`' || c == '"' || c == '\\'
  }

  function Read(s: string, m: ScriptMode, env: Environment): Option<seq<Token>>
    decreases |s|
  {
    if s == "" then (if m.Plain? then Lex("", m.m) else None)
    else
      match m
      case Plain(mode) => ReadPlain(s, mode, env)
      case InDouble(w) => ReadDouble(s, w, env)
      case InParam(w, name) =>
        if NameChar(s[0]) then Read(s[1..], InParam(w, name + [s[0]]), env)
        else if name != "" && |s| >= 3 && s[0] == ':' && s[1] == '-' && s[2] == '}' then
          Read(s[3..], InDouble(w + env(name)), env)
        else None
  }

  function ReadDouble(s: string, w: string, env: Environment): Option<seq<Token>>
    requires s != ""
    decreases |s|, 0
  {
    var c, rest := s[0], s[1..];
    if c == '"' then Read(rest, Plain(InWord(w)), env)
    else if c == '\\' then
      if rest == "" then None
      else if Escapable(rest[0]) then Read(rest[1..], InDouble(w + [rest[0]]), env)
      else if rest[0] == '\n' then Read(rest[1..], InDouble(w), env)
      else Read(rest, InDouble(w + [c]), env)
    else if c == '$' then
      if rest != "" && rest[0] == '{' then Read(rest[1..], InParam(w, ""), env) else None
    else if c == '`' then None
    else Read(rest, InDouble(w + [c]), env)
  }

  function ReadPlain(s: string, m: Mode, env: Environment): Option<seq<Token>>
    requires s != ""
    decreases |s|, 0
  {
    var c, rest := s[0], s[1..];
    if m.InQuote? then
      if c == '\'' then Read(rest, Plain(InWord(m.word)), env) else Read(rest, Plain(InQuote(m.word + [c])), env)
    else if c == ' ' || c == '\t' then Prepend(Emitted(m), Read(rest, Plain(Between), env))
    else if c == '\'' then Read(rest, Plain(InQuote(WordOf(m))), env)
    else if c == '"' then Read(rest, InDouble(WordOf(m)), env)
    else if c == '\\' then
      if rest == "" then None
      else if rest[0] == '\n' then Read(rest[1..], Plain(m), env)
      else Read(rest[1..], Plain(InWord(WordOf(m) + [rest[0]])), env)
    else if c == ';' then Prepend(Emitted(m) + [Operator(";")], Read(rest, Plain(Between), env))
    else if c == '&' && rest != "" && rest[0] == '&' then
      Prepend(Emitted(m) + [Operator("&&")], Read(rest[1..], Plain(Between), env))
    else if c == '|' && rest != "" && rest[0] == '|' then
      Prepend(Emitted(m) + [Operator("||")], Read(rest[1..], Plain(Between), env))
    else if c == '[' && m.Between? && rest != "" && rest[0] == ' ' then Read(rest, Plain(InWord("[")), env)
    else if Special(c) then None
    else Read(rest, Plain(InWord(WordOf(m) + [c])), env)
  }

  /** Whatever the smaller reader reads, the larger one reads the same way. */
  lemma {:induction false} ReadExtendsLex(s: string, m: Mode, env: Environment)
    requires Lex(s, m).Some?
    ensures Read(s, Plain(m), env) == Lex(s, m)
    decreases |s|
  {
    if s != "" {
      var c, rest := s[0], s[1..];
      if m.InQuote? {
        ReadExtendsLex(rest, if c == '\'' then InWord(m.word) else InQuote(m.word + [c]), env);
      } else if c == ' ' || c == '\t' || c == ';' {
        ReadExtendsLex(rest, Between, env);
      } else if c == '\'' {
        ReadExtendsLex(rest, InQuote(WordOf(m)), env);
      } else if c == '\\' {
        ReadExtendsLex(rest[1..], if rest[0] == '\n' then m else InWord(WordOf(m) + [rest[0]]), env);
      } else if c == '&' && rest != "" && rest[0] == '&' {
        ReadExtendsLex(rest[1..], Between, env);
      } else {
        ReadExtendsLex(rest, InWord(WordOf(m) + [c]), env);
      }
    }
  }

  // ----- the words of the guard -----

  lemma {:induction false} BareReads(w: string, m: Mode, rest: string, env: Environment)
    requires AllPlain(w) && w != "" && !m.InQuote?
    ensures Read(w + rest, Plain(m), env) == Read(rest, Plain(InWord(WordOf(m) + w)), env)
    decreases |w|
  {
    assert (w + rest)[1..] == w[1..] + rest;
    assert !Special(w[0]);
    if |w| == 1 {
      assert w == [w[0]] && w[1..] + rest == rest;
    } else {
      BareReads(w[1..], InWord(WordOf(m) + [w[0]]), rest, env);
      assert WordOf(m) + [w[0]] + w[1..] == WordOf(m) + w;
    }
  }

  lemma WordThenBlank(w: string, rest: string, env: Environment)
    ensures Read(" " + rest, Plain(InWord(w)), env) == Prepend([Word(w)], Read(rest, Plain(Between), env))
  {
    assert (" " + rest)[1..] == rest;
  }

  lemma BareWordReads(w: string, rest: string, env: Environment)
    requires AllPlain(w) && w != ""
    ensures Read(w + (" " + rest), Plain(Between), env) == Prepend([Word(w)], Read(rest, Plain(Between), env))
  {
    BareReads(w, Between, " " + rest, env);
    assert "" + w == w;
    WordThenBlank(w, rest, env);
  }

  lemma BracketReads(rest: string, env: Environment)
    ensures Read("[" + (" " + rest), Plain(Between), env) == Prepend([Word("[")], Read(rest, Plain(Between), env))
  {
    assert ("[" + (" " + rest))[1..] == " " + rest;
    WordThenBlank("[", rest, env);
  }

  lemma OrReads(rest: string, env: Environment)
    ensures Read("||" + (" " + rest), Plain(Between), env) == Prepend([Operator("||")], Read(rest, Plain(Between), env))
  {
    var text := "||" + (" " + rest);
    assert text[0] == '|' && text[1..][0] == '|' && text[1..][1..] == " " + rest;
    BlankSkipped(rest, env);
    assert Emitted(Between) + [Operator("||")] == [Operator("||")];
  }

  lemma BlankSkipped(rest: string, env: Environment)
    ensures Read(" " + rest, Plain(Between), env) == Read(rest, Plain(Between), env)
  {
    assert (" " + rest)[1..] == rest;
    EmptyPrepend(Read(rest, Plain(Between), env));
  }

  lemma WordThenSemicolon(w: string, rest: string, env: Environment)
    requires AllPlain(w) && w != ""
    ensures Read((w + ";") + (" " + rest), Plain(Between), env)
         == Prepend([Word(w), Operator(";")], Read(rest, Plain(Between), env))
  {
    var tail := ";" + (" " + rest);
    assert (w + ";") + (" " + rest) == w + tail;
    BareReads(w, Between, tail, env);
    assert "" + w == w;
    assert tail[1..] == " " + rest;
    BlankSkipped(rest, env);
    assert [Word(w)] + [Operator(";")] == [Word(w), Operator(";")];
  }

  predicate PlainInDouble(c: char) {
    !Escapable(c)
  }

  lemma {:induction false} DoubleBody(text: string, w: string, rest: string, env: Environment)
    requires forall i :: 0 <= i < |text| ==> PlainInDouble(text[i])
    ensures Read(text + ("\"" + rest), InDouble(w), env) == Read(rest, Plain(InWord(w + text)), env)
    decreases |text|
  {
    var whole := text + ("\"" + rest);
    if text == "" {
      assert whole == "\"" + rest && whole[1..] == rest && w + text == w;
    } else {
      assert whole[0] == text[0] && whole[1..] == text[1..] + ("\"" + rest);
      assert PlainInDouble(text[0]);
      DoubleBody(text[1..], w + [text[0]], rest, env);
      assert w + [text[0]] + text[1..] == w + text;
    }
  }

  lemma QuotedText(text: string, rest: string)
    ensures ("\"" + text + "\"") + rest == "\"" + (text + ("\"" + rest))
  {
  }

  lemma OpensDouble(inside: string, env: Environment)
    ensures Read("\"" + inside, Plain(Between), env) == Read(inside, InDouble(""), env)
  {
    assert ("\"" + inside)[1..] == inside;
  }

  lemma DoubleWordReads(text: string, rest: string, env: Environment)
    requires forall i :: 0 <= i < |text| ==> PlainInDouble(text[i])
    ensures Read(("\"" + text + "\"") + (" " + rest), Plain(Between), env) == Prepend([Word(text)], Read(rest, Plain(Between), env))
  {
    QuotedText(text, " " + rest);
    OpensDouble(text + ("\"" + (" " + rest)), env);
    DoubleBody(text, "", " " + rest, env);
    assert "" + text == text;
    WordThenBlank(text, rest, env);
  }

  lemma {:induction false} NameReads(name: string, w: string, begun: string, rest: string, env: Environment)
    requires forall i :: 0 <= i < |name| ==> NameChar(name[i])
    requires begun + name != ""
    ensures Read(name + (":-}" + rest), InParam(w, begun), env) == Read(rest, InDouble(w + env(begun + name)), env)
    decreases |name|
  {
    var whole := name + (":-}" + rest);
    if name == "" {
      assert whole == ":-}" + rest && begun + name == begun;
      assert whole[3..] == rest;
    } else {
      assert whole[0] == name[0] && whole[1..] == name[1..] + (":-}" + rest);
      NameReads(name[1..], w, begun + [name[0]], rest, env);
      assert begun + [name[0]] + name[1..] == begun + name;
    }
  }

  lemma ParamWordReads(name: string, rest: string, env: Environment)
    requires name != "" && forall i :: 0 <= i < |name| ==> NameChar(name[i])
    ensures Read(("\"${" + name + ":-}\"") + (" " + rest), Plain(Between), env)
         == Prepend([Word(env(name))], Read(rest, Plain(Between), env))
  {
    var tail := "\"" + (" " + rest);
    var inside := name + (":-}" + tail);
    ParamText(name, rest);
    OpensDouble("${" + inside, env);
    DollarReads(inside, env);
    NameReads(name, "", "", tail, env);
    assert "" + name == name && "" + env(name) == env(name);
    assert tail[1..] == " " + rest;
    WordThenBlank(env(name), rest, env);
  }

  lemma DollarReads(inside: string, env: Environment)
    ensures Read("${" + inside, InDouble(""), env) == Read(inside, InParam("", ""), env)
  {
    var s := "${" + inside;
    assert s[0] == '$' && s[1..][0] == '{' && s[1..][1..] == inside;
  }

  lemma ParamText(name: string, rest: string)
    ensures ("\"${" + name + ":-}\"") + (" " + rest) == "\"" + ("${" + (name + (":-}" + ("\"" + (" " + rest)))))
  {
    assert ":-}\"" == ":-}" + "\"";
    assert "\"${" == "\"" + "${";
  }

  // ----- the whole script -----

  const OWNED := "FLOW_HOOK_OWNED"

  function GuardTokens(owned: string): seq<Token> {
    [Word("["), Word(owned), Word("="), Word("1"), Word("]"), Operator("||"), Word("exit"), Word("0"), Operator(";"), Word("exec")]
  }

  lemma GuardSpelled(rest: string)
    ensures Spaced(GuardWords(), rest) ==
      "[" + (" " + (("\"${" + OWNED + ":-}\"") + (" " + ("=" + (" " + (("\"" + "1" + "\"") + (" " + ("]" + (" "
        + ("||" + (" " + ("exit" + (" " + (("0" + ";") + (" " + ("exec" + (" " + rest)))))))))))))))))
  {
    assert "\"${" + OWNED + ":-}\"" == GuardWords()[1];
    SpacedNine(GuardWords(), rest);
  }

  lemma SpacedNine(w: seq<string>, rest: string)
    requires |w| == 9
    ensures Spaced(w, rest) ==
      w[0] + (" " + (w[1] + (" " + (w[2] + (" " + (w[3] + (" " + (w[4] + (" "
        + (w[5] + (" " + (w[6] + (" " + (w[7] + (" " + (w[8] + (" " + rest)))))))))))))))))
  {
    SpacedThree(w[..3], Spaced(w[3..6], Spaced(w[6..], rest)));
    SpacedThree(w[3..6], Spaced(w[6..], rest));
    SpacedThree(w[6..], rest);
    SpacedSplit(w[..3], w[3..6] + w[6..], rest);
    SpacedSplit(w[3..6], w[6..], rest);
    assert w == w[..3] + (w[3..6] + w[6..]);
  }

  lemma SpacedThree(w: seq<string>, rest: string)
    requires |w| == 3
    ensures Spaced(w, rest) == w[0] + (" " + (w[1] + (" " + (w[2] + (" " + rest)))))
  {
    assert w[1..][1..] == w[2..] && w[2..][1..] == [];
    assert Spaced(w[2..], rest) == w[2] + (" " + rest);
    assert Spaced(w[1..], rest) == w[1] + (" " + Spaced(w[2..], rest));
  }

  lemma GuardPlain()
    ensures AllPlain("=") && AllPlain("]") && AllPlain("exit") && AllPlain("0") && AllPlain("exec")
    ensures forall i :: 0 <= i < |OWNED| ==> NameChar(OWNED[i])
  {
  }

  lemma GuardFrontReads(rest: string, env: Environment)
    ensures Read("[" + (" " + (("\"${" + OWNED + ":-}\"") + (" " + ("=" + (" " + (("\"" + "1" + "\"") + (" " + rest))))))), Plain(Between), env)
         == Prepend([Word("["), Word(env(OWNED)), Word("="), Word("1")], Read(rest, Plain(Between), env))
  {
    GuardPlain();
    var one := ("\"" + "1" + "\"") + (" " + rest);
    var equals := "=" + (" " + one);
    var name := ("\"${" + OWNED + ":-}\"") + (" " + equals);
    BracketReads(name, env);
    ParamWordReads(OWNED, equals, env);
    BareWordReads("=", one, env);
    DoubleWordReads("1", rest, env);
    FourPrepended(Word("["), Word(env(OWNED)), Word("="), Word("1"), Read(rest, Plain(Between), env));
  }

  lemma FourPrepended(a: Token, b: Token, c: Token, d: Token, rest: Option<seq<Token>>)
    ensures Prepend([a], Prepend([b], Prepend([c], Prepend([d], rest)))) == Prepend([a, b, c, d], rest)
  {
    PrependTwice([c], [d], rest);
    PrependTwice([b], [c, d], rest);
    PrependTwice([a], [b, c, d], rest);
    assert [c] + [d] == [c, d] && [b] + [c, d] == [b, c, d] && [a] + [b, c, d] == [a, b, c, d];
  }

  lemma GuardBackReads(rest: string, env: Environment)
    ensures Read("]" + (" " + ("||" + (" " + ("exit" + (" " + (("0" + ";") + (" " + ("exec" + (" " + rest))))))))), Plain(Between), env)
         == Prepend([Word("]"), Operator("||"), Word("exit"), Word("0"), Operator(";"), Word("exec")], Read(rest, Plain(Between), env))
  {
    GuardPlain();
    var exec := "exec" + (" " + rest);
    var zero := ("0" + ";") + (" " + exec);
    var exit := "exit" + (" " + zero);
    BareWordReads("]", "||" + (" " + exit), env);
    OrReads(exit, env);
    BareWordReads("exit", zero, env);
    WordThenSemicolon("0", exec, env);
    BareWordReads("exec", rest, env);
    var end := Read(rest, Plain(Between), env);
    PrependTwice([Word("0"), Operator(";")], [Word("exec")], end);
    FourPrepended(Word("]"), Operator("||"), Word("exit"), Word("0"), Prepend([Operator(";"), Word("exec")], end));
    PrependTwice([Word("0")], [Operator(";"), Word("exec")], end);
    PrependTwice([Word("]"), Operator("||"), Word("exit"), Word("0")], [Operator(";"), Word("exec")], end);
    assert [Word("0"), Operator(";")] + [Word("exec")] == [Word("0")] + [Operator(";"), Word("exec")];
    assert [Word("]"), Operator("||"), Word("exit"), Word("0")] + [Operator(";"), Word("exec")]
        == [Word("]"), Operator("||"), Word("exit"), Word("0"), Operator(";"), Word("exec")];
  }

  /** The guard is read as a test of the variable's value, an exit, and then whatever the text
      behind it reads as. */
  lemma GuardReads(rest: string, env: Environment)
    ensures Read(OwnedScript(rest), Plain(Between), env) == Prepend(GuardTokens(env(OWNED)), Read(rest, Plain(Between), env))
  {
    GuardSpelled(rest);
    var back := "]" + (" " + ("||" + (" " + ("exit" + (" " + (("0" + ";") + (" " + ("exec" + (" " + rest)))))))));
    GuardFrontReads(back, env);
    GuardBackReads(rest, env);
    var front := [Word("["), Word(env(OWNED)), Word("="), Word("1")];
    var behind := [Word("]"), Operator("||"), Word("exit"), Word("0"), Operator(";"), Word("exec")];
    PrependTwice(front, behind, Read(rest, Plain(Between), env));
    assert front + behind == GuardTokens(env(OWNED));
  }

  /** Both levels of the nested form, whatever characters the URL has: the outer shell hands
      sh -c one script, and the inner shell reads that script as the guard, exec and the
      command's words with the URL intact. */
  lemma NestedScriptReads(provider: string, version: nat, url: string, env: Environment)
    requires ProviderName(provider)
    ensures var script := OwnedScript(BuildHookCommand(provider, version, url));
      && Lex(FlowOwnedOnlyCommand(BuildHookCommand(provider, version, url)), Between) == Some(Words(["sh", "-c", script]))
      && Read(script, Plain(Between), env)
         == Some(GuardTokens(env(OWNED)) + Words(HookWords(provider) + [Itoa(version)] + UrlWords(url)))
  {
    var command := BuildHookCommand(provider, version, url);
    HookCommandEnds(provider, version, url);
    OwnedCommandLexes(command);
    HookCommandLexes(provider, version, url);
    ReadExtendsLex(command, Between, env);
    GuardReads(command, env);
  }
}
