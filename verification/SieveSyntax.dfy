/**
 * Reading Sieve: the subset of RFC 5228 (sections 2.4.2, 2.6 and 8) that covers quoted strings,
 * string lists, tagged arguments, hash comments, tests without nesting, and blocks.
 */
module SieveSyntax {
  import opened Prelude

  datatype Token =
    | Word(name: string)
    | Tag(name: string)
    | Text(text: string)
    | Semicolon
    | Comma
    | OpenBrace
    | CloseBrace
    | OpenBracket
    | CloseBracket

  datatype Argument = TagArgument(name: string) | TextArgument(text: string) | ListArgument(items: seq<string>)

  datatype Test = Test(name: string, args: seq<Argument>)

  datatype Command =
    | Simple(name: string, args: seq<Argument>)
    | Conditional(name: string, test: Option<Test>, body: seq<Command>)

  // ----- Characters to tokens -----

  predicate IsWordChar(c: char) {
    'a' <= c <= 'z' || 'A' <= c <= 'Z' || '0' <= c <= '9' || c == '_'
  }

  predicate IsWordStart(c: char) {
    IsWordChar(c) && !('0' <= c <= '9')
  }

  predicate IsSpace(c: char) {
    c == ' ' || c == '\t' || c == '\r' || c == '\n'
  }

  function WordLength(s: string): (n: nat)
    ensures n <= |s|
  {
    if s != "" && IsWordChar(s[0]) then 1 + WordLength(s[1..]) else 0
  }

  /** Characters up to and including the end of the line. */
  function LineLength(s: string): (n: nat)
    ensures n <= |s|
    ensures s != "" ==> n > 0
  {
    if s == "" then 0 else if s[0] == '\n' then 1 else 1 + LineLength(s[1..])
  }

  /** The rest of a quoted string: its decoded content and what follows the closing quote. */
  function ReadText(s: string): (r: Option<(string, string)>)
    ensures r.Some? ==> |r.value.1| < |s|
  {
    if s == "" then None
    else if s[0] == '"' then Some(("", s[1..]))
    else if s[0] == '\\' then
      if |s| < 2 then None
      else
        var (content, rest) :- ReadText(s[2..]);
        Some(([s[1]] + content, rest))
    else
      var (content, rest) :- ReadText(s[1..]);
      Some(([s[0]] + content, rest))
  }

  function Punctuation(c: char): Option<Token> {
    match c
    case ';' => Some(Semicolon)
    case ',' => Some(Comma)
    case '{' => Some(OpenBrace)
    case '}' => Some(CloseBrace)
    case '[' => Some(OpenBracket)
    case ']' => Some(CloseBracket)
    case _ => None
  }

  function Then(tokens: seq<Token>, rest: Option<seq<Token>>): Option<seq<Token>> {
    if rest.None? then None else Some(tokens + rest.value)
  }

  function Lex(s: string): Option<seq<Token>>
    decreases |s|
  {
    if s == "" then Some([])
    else if IsSpace(s[0]) then Lex(s[1..])
    else if s[0] == '#' then Lex(s[LineLength(s)..])
    else if s[0] == '"' then
      var (content, rest) :- ReadText(s[1..]);
      Then([Text(content)], Lex(rest))
    else if IsWordStart(s[0]) then
      var n := WordLength(s);
      Then([Word(s[..n])], Lex(s[n..]))
    else if s[0] == ':' && |s| > 1 && IsWordStart(s[1]) then
      var n := WordLength(s[1..]);
      Then([Tag(s[1..n + 1])], Lex(s[n + 1..]))
    else
      var token :- Punctuation(s[0]);
      Then([token], Lex(s[1..]))
  }

  // ----- Tokens to commands -----

  function ParseItems(ts: seq<Token>): (r: Option<(seq<string>, seq<Token>)>)
    ensures r.Some? ==> |r.value.1| < |ts| && r.value.0 != []
  {
    if |ts| < 2 || !ts[0].Text? then None
    else if ts[1].CloseBracket? then Some(([ts[0].text], ts[2..]))
    else if ts[1].Comma? then
      var (items, rest) :- ParseItems(ts[2..]);
      Some(([ts[0].text] + items, rest))
    else None
  }

  function ParseArguments(ts: seq<Token>): (r: Option<(seq<Argument>, seq<Token>)>)
    ensures r.Some? ==> |r.value.1| <= |ts|
    decreases |ts|
  {
    if ts == [] then Some(([], ts))
    else
      match ts[0]
      case Tag(name) =>
        var (args, rest) :- ParseArguments(ts[1..]);
        Some(([TagArgument(name)] + args, rest))
      case Text(text) =>
        var (args, rest) :- ParseArguments(ts[1..]);
        Some(([TextArgument(text)] + args, rest))
      case OpenBracket =>
        var (items, after) :- ParseItems(ts[1..]);
        var (args, rest) :- ParseArguments(after);
        Some(([ListArgument(items)] + args, rest))
      case _ => Some(([], ts))
  }

  /** An optional test, up to the brace that opens the block. */
  function ParseTest(ts: seq<Token>): (r: Option<(Option<Test>, seq<Token>)>)
    ensures r.Some? ==> |r.value.1| < |ts|
  {
    if ts == [] then None
    else if ts[0].OpenBrace? then Some((None, ts[1..]))
    else if ts[0].Word? then
      var (args, rest) :- ParseArguments(ts[1..]);
      if rest != [] && rest[0].OpenBrace? then Some((Some(Test(ts[0].name, args)), rest[1..])) else None
    else None
  }

  function ParseCommand(ts: seq<Token>): (r: Option<(Command, seq<Token>)>)
    ensures r.Some? ==> |r.value.1| < |ts|
    decreases |ts|, 0
  {
    if ts == [] || !ts[0].Word? then None
    else
      var (args, rest) :- ParseArguments(ts[1..]);
      if rest == [] then None
      else if rest[0].Semicolon? then Some((Simple(ts[0].name, args), rest[1..]))
      else if args != [] then None
      else
        var (test, inner) :- ParseTest(rest);
        var (body, after) :- ParseCommands(inner);
        if after != [] && after[0].CloseBrace? then Some((Conditional(ts[0].name, test, body), after[1..])) else None
  }

  function ParseCommands(ts: seq<Token>): (r: Option<(seq<Command>, seq<Token>)>)
    ensures r.Some? ==> |r.value.1| <= |ts|
    decreases |ts|, 1
  {
    if ts == [] || ts[0].CloseBrace? then Some(([], ts))
    else
      var (command, after) :- ParseCommand(ts);
      var (commands, rest) :- ParseCommands(after);
      Some(([command] + commands, rest))
  }

  function Parse(s: string): Option<seq<Command>> {
    var tokens :- Lex(s);
    var (commands, rest) :- ParseCommands(tokens);
    if rest == [] then Some(commands) else None
  }

  // ----- Commands back to tokens -----

  function ItemTokens(items: seq<string>): seq<Token>
  {
    if items == [] then [CloseBracket]
    else if |items| == 1 then [Text(items[0]), CloseBracket]
    else [Text(items[0]), Comma] + ItemTokens(items[1..])
  }

  function ArgumentToken(a: Argument): seq<Token>
  {
    match a
    case TagArgument(name) => [Tag(name)]
    case TextArgument(text) => [Text(text)]
    case ListArgument(items) => [OpenBracket] + ItemTokens(items)
  }

  function ArgumentTokens(args: seq<Argument>): seq<Token>
  {
    if args == [] then []
    else ArgumentToken(args[0]) + ArgumentTokens(args[1..])
  }

  function TestTokens(test: Option<Test>): seq<Token> {
    if test.None? then [] else [Word(test.value.name)] + ArgumentTokens(test.value.args)
  }

  function CommandTokens(c: Command): seq<Token>
    decreases c, 0
  {
    match c
    case Simple(name, args) => [Word(name)] + (ArgumentTokens(args) + [Semicolon])
    case Conditional(name, test, body) =>
      [Word(name)] + (TestTokens(test) + ([OpenBrace] + (CommandsTokens(body) + [CloseBrace])))
  }

  function CommandsTokens(cs: seq<Command>): seq<Token>
    decreases cs, 1
  {
    if cs == [] then [] else CommandTokens(cs[0]) + CommandsTokens(cs[1..])
  }

  /** A string list holds at least one string. */
  ghost predicate NonemptyLists(args: seq<Argument>) {
    forall a | a in args :: a.ListArgument? ==> a.items != []
  }

  ghost predicate WellFormedCommand(c: Command)
    decreases c, 0
  {
    match c
    case Simple(_, args) => NonemptyLists(args)
    case Conditional(_, test, body) => (test.Some? ==> NonemptyLists(test.value.args)) && WellFormed(body)
  }

  ghost predicate WellFormed(cs: seq<Command>)
    decreases cs, 1
  {
    cs == [] || (WellFormedCommand(cs[0]) && WellFormed(cs[1..]))
  }

  // ----- Printing tokens and parsing them again -----

  lemma {:induction false} ItemsReadBack(items: seq<string>, rest: seq<Token>)
    requires items != []
    ensures ParseItems(ItemTokens(items) + rest) == Some((items, rest))
  {
    if |items| == 1 {
      assert ItemTokens(items) == [Text(items[0]), CloseBracket];
      assert ([Text(items[0]), CloseBracket] + rest)[2..] == rest;
      assert items == [items[0]];
    } else {
      ItemsReadBack(items[1..], rest);
      var tail := ItemTokens(items[1..]) + rest;
      ConcatAssociates([Text(items[0]), Comma], ItemTokens(items[1..]), rest);
      assert ([Text(items[0]), Comma] + tail)[2..] == tail;
      assert items == [items[0]] + items[1..];
    }
  }

  /** Arguments end at the first token that cannot start one. */
  ghost predicate EndsArguments(rest: seq<Token>) {
    rest == [] || !(rest[0].Tag? || rest[0].Text? || rest[0].OpenBracket?)
  }

  lemma ArgumentReadsBack(a: Argument, more: seq<Argument>, tail: seq<Token>, rest: seq<Token>)
    requires a.ListArgument? ==> a.items != []
    requires ParseArguments(tail) == Some((more, rest))
    ensures ParseArguments(ArgumentToken(a) + tail) == Some(([a] + more, rest))
  {
    match a
    case TagArgument(name) => assert ([Tag(name)] + tail)[1..] == tail;
    case TextArgument(text) => assert ([Text(text)] + tail)[1..] == tail;
    case ListArgument(items) =>
      ItemsReadBack(items, tail);
      var inner := ItemTokens(items) + tail;
      ConcatAssociates([OpenBracket], ItemTokens(items), tail);
      assert ([OpenBracket] + inner)[1..] == inner;
  }

  lemma {:induction false} ArgumentsReadBack(args: seq<Argument>, rest: seq<Token>)
    requires NonemptyLists(args) && EndsArguments(rest)
    ensures ParseArguments(ArgumentTokens(args) + rest) == Some((args, rest))
  {
    if args == [] {
      assert ArgumentTokens(args) + rest == rest;
    } else {
      assert args == [args[0]] + args[1..];
      ArgumentsReadBack(args[1..], rest);
      var tail := ArgumentTokens(args[1..]) + rest;
      ConcatAssociates(ArgumentToken(args[0]), ArgumentTokens(args[1..]), rest);
      ArgumentReadsBack(args[0], args[1..], tail, rest);
    }
  }

  lemma TestReadsBack(test: Option<Test>, rest: seq<Token>)
    requires test.Some? ==> NonemptyLists(test.value.args)
    ensures ParseTest(TestTokens(test) + ([OpenBrace] + rest)) == Some((test, rest))
  {
    var after := [OpenBrace] + rest;
    assert after[1..] == rest;
    if test.None? {
      assert TestTokens(test) + after == after;
    } else {
      var Test(name, args) := test.value;
      ArgumentsReadBack(args, after);
      ConcatAssociates([Word(name)], ArgumentTokens(args), after);
      assert ([Word(name)] + (ArgumentTokens(args) + after))[1..] == ArgumentTokens(args) + after;
    }
  }

  lemma SimpleReadsBack(name: string, args: seq<Argument>, rest: seq<Token>)
    requires NonemptyLists(args)
    ensures ParseCommand([Word(name)] + (ArgumentTokens(args) + ([Semicolon] + rest))) == Some((Simple(name, args), rest))
  {
    var after := [Semicolon] + rest;
    var inner := ArgumentTokens(args) + after;
    ArgumentsReadBack(args, after);
    assert ([Word(name)] + inner)[1..] == inner;
    assert after[1..] == rest;
  }

  lemma ConditionalReadsBack(name: string, test: Option<Test>, body: seq<Command>, inner: seq<Token>, rest: seq<Token>)
    requires test.Some? ==> NonemptyLists(test.value.args)
    requires ParseCommands(inner) == Some((body, [CloseBrace] + rest))
    ensures ParseCommand([Word(name)] + (TestTokens(test) + ([OpenBrace] + inner)))
         == Some((Conditional(name, test, body), rest))
  {
    var opening := TestTokens(test) + ([OpenBrace] + inner);
    assert ([Word(name)] + opening)[1..] == opening;
    assert ParseArguments(opening) == Some(([], opening));
    TestReadsBack(test, inner);
    assert ([CloseBrace] + rest)[1..] == rest;
  }

  lemma {:induction false} CommandReadsBack(c: Command, rest: seq<Token>)
    requires WellFormedCommand(c)
    ensures ParseCommand(CommandTokens(c) + rest) == Some((c, rest))
    decreases c, 0
  {
    match c
    case Simple(name, args) =>
      SimpleReadsBack(name, args, rest);
      ConcatAssociates([Word(name)], ArgumentTokens(args) + [Semicolon], rest);
      ConcatAssociates(ArgumentTokens(args), [Semicolon], rest);
    case Conditional(name, test, body) =>
      var inner := CommandsTokens(body) + ([CloseBrace] + rest);
      CommandsReadBack(body, [CloseBrace] + rest);
      ConditionalReadsBack(name, test, body, inner, rest);
      var block := CommandsTokens(body) + [CloseBrace];
      ConcatAssociates([Word(name)], TestTokens(test) + ([OpenBrace] + block), rest);
      ConcatAssociates(TestTokens(test), [OpenBrace] + block, rest);
      ConcatAssociates([OpenBrace], block, rest);
      ConcatAssociates(CommandsTokens(body), [CloseBrace], rest);
  }

  lemma CommandStarts(c: Command)
    ensures CommandTokens(c) != [] && CommandTokens(c)[0].Word?
  {
    match c
    case Simple(name, args) => assert CommandTokens(c)[0] == Word(name);
    case Conditional(name, test, body) => assert CommandTokens(c)[0] == Word(name);
  }

  /** Parsing undoes printing for every well-formed script, whatever closes it. */
  lemma {:induction false} CommandsReadBack(cs: seq<Command>, rest: seq<Token>)
    requires WellFormed(cs)
    requires rest == [] || rest[0].CloseBrace?
    ensures ParseCommands(CommandsTokens(cs) + rest) == Some((cs, rest))
    decreases cs, 1
  {
    if cs == [] {
      assert CommandsTokens(cs) + rest == rest;
    } else {
      assert cs == [cs[0]] + cs[1..];
      var tail := CommandsTokens(cs[1..]) + rest;
      CommandReadsBack(cs[0], tail);
      CommandStarts(cs[0]);
      ConcatAssociates(CommandTokens(cs[0]), CommandsTokens(cs[1..]), rest);
      CommandsReadBack(cs[1..], rest);
    }
  }
}
