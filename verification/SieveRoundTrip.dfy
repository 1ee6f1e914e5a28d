/**
 * Printing and parsing undo each other: whatever the rules and options contain, the script
 * reads back as one require, the spam block, one `if` per emitted rule, and the closing pipe,
 * each holding the original strings.
 */
module SieveRoundTrip {
  import opened Prelude
  import opened SieveCompiler
  import opened SieveSyntax

  // ----- The tree a rule list stands for -----

  const REQUIRED := ["copy", "fileinto", "imap4flags", "mailbox", "vnd.dovecot.pipe"]

  function PipeCommand(script: string, folder: string): Command {
    Simple("pipe", [TagArgument("copy"), TextArgument(script), ListArgument([folder])])
  }

  function HeaderTest(match_: string, header: string, key: string): Test {
    Test("header", [TagArgument(match_), TextArgument(header), TextArgument(key)])
  }

  function SpamBlock(options: Options): Command {
    Conditional("if", Some(HeaderTest("contains", "X-Spam-Flag", "YES")),
                [Simple("fileinto", [TagArgument("create"), TextArgument(options.junkFolder)]),
                 PipeCommand(options.notifyScript, options.junkFolder),
                 Simple("stop", [])])
  }

  function RuleTest(rule: Rule): Option<Test> {
    var header :- HeaderFor(rule.conditionField);
    match rule.conditionOperator
    case ContainsText => Some(HeaderTest("contains", header, rule.conditionValue))
    case EqualsText => Some(HeaderTest("is", header, rule.conditionValue))
    case StartsWithText => Some(HeaderTest("matches", header, rule.conditionValue + "*"))
    case EndsWithText => Some(HeaderTest("matches", header, "*" + rule.conditionValue))
    case OtherOperator(_) => None
  }

  function RuleActions(rule: Rule, notify: string): Option<seq<Command>> {
    match rule.action
    case MoveTo =>
      var folder :- rule.targetFolder;
      Some([Simple("fileinto", [TextArgument(folder)]), PipeCommand(notify, folder), Simple("stop", [])])
    case MarkRead => Some([Simple("setflag", [TextArgument("\\Seen")])])
    case Forward => Some([Simple("redirect", [TextArgument(rule.conditionValue)]), Simple("stop", [])])
    case Discard => Some([Simple("discard", []), Simple("stop", [])])
    case OtherAction(_) => None
  }

  function RuleCommands(rule: Rule, notify: string): seq<Command> {
    var test, actions := RuleTest(rule), RuleActions(rule, notify);
    if test.None? || actions.None? then [] else [Conditional("if", test, actions.value)]
  }

  function AllRuleCommands(rules: seq<Rule>, notify: string): seq<Command>
  {
    if rules == [] then [] else RuleCommands(rules[0], notify) + AllRuleCommands(rules[1..], notify)
  }

  function Tree(rules: seq<Rule>, options: Options): seq<Command> {
    [Simple("require", [ListArgument(REQUIRED)]), SpamBlock(options)]
    + (AllRuleCommands(SortByPosition(ActiveRules(rules)), options.notifyScript)
       + [PipeCommand(options.notifyScript, "INBOX")])
  }

  // ----- How pieces of text read, whatever follows them -----

  ghost predicate Reads(a: string, tokens: seq<Token>) {
    forall rest: string :: Lex(a + rest) == Then(tokens, Lex(rest))
  }

  lemma ReadsConcat(a: string, ta: seq<Token>, b: string, tb: seq<Token>)
    requires Reads(a, ta) && Reads(b, tb)
    ensures Reads(a + b, ta + tb)
  {
    forall rest: string
      ensures Lex((a + b) + rest) == Then(ta + tb, Lex(rest))
    {
      ConcatAssociates(a, b, rest);
      assert Lex(a + (b + rest)) == Then(ta, Lex(b + rest));
      if Lex(rest).Some? {
        ConcatAssociates(ta, tb, Lex(rest).value);
      }
    }
  }

  lemma LexSpace(c: char, s: string)
    requires IsSpace(c)
    ensures Lex([c] + s) == Lex(s)
  {
    assert ([c] + s)[1..] == s;
  }

  lemma ReadsEmpty()
    ensures Reads("", [])
  {
    forall rest: string
      ensures Lex("" + rest) == Then([], Lex(rest))
    {
      assert "" + rest == rest;
      assert Lex(rest).Some? ==> [] + Lex(rest).value == Lex(rest).value;
    }
  }

  lemma ReadsSpaceThen(c: char, a: string)
    requires IsSpace(c) && Reads(a, [])
    ensures Reads([c] + a, [])
  {
    forall rest: string
      ensures Lex(([c] + a) + rest) == Then([], Lex(rest))
    {
      ConcatAssociates([c], a, rest);
      LexSpace(c, a + rest);
    }
  }

  lemma {:induction false} ReadsSpaces(a: string)
    requires forall c | c in a :: IsSpace(c)
    ensures Reads(a, [])
  {
    if a == "" {
      ReadsEmpty();
    } else {
      assert a == [a[0]] + a[1..];
      ReadsSpaces(a[1..]);
      ReadsSpaceThen(a[0], a[1..]);
    }
  }

  lemma LexPunctuation(c: char, s: string)
    requires Punctuation(c).Some?
    ensures Lex([c] + s) == Then([Punctuation(c).value], Lex(s))
  {
    var t := [c] + s;
    assert t != "" && t[0] == c && t[1..] == s;
    assert !IsSpace(c) && c != '#' && c != '"' && !IsWordStart(c) && c != ':';
  }

  lemma ReadsPunctuation(c: char)
    requires Punctuation(c).Some?
    ensures Reads([c], [Punctuation(c).value])
  {
    forall rest: string
      ensures Lex([c] + rest) == Then([Punctuation(c).value], Lex(rest))
    {
      LexPunctuation(c, rest);
    }
  }

  ghost predicate IsWord(w: string) {
    w != "" && IsWordStart(w[0]) && forall c | c in w :: IsWordChar(c)
  }

  ghost predicate EndsWord(s: string) {
    s == "" || !IsWordChar(s[0])
  }

  lemma {:induction false} WordLengthStops(w: string, rest: string)
    requires forall c | c in w :: IsWordChar(c)
    requires EndsWord(rest)
    ensures WordLength(w + rest) == |w|
  {
    if w == "" {
      assert w + rest == rest;
    } else {
      assert w[0] in w;
      WordLengthStops(w[1..], rest);
      assert (w + rest)[1..] == w[1..] + rest;
    }
  }

  lemma LexWord(w: string, s: string)
    requires IsWord(w) && EndsWord(s)
    ensures Lex(w + s) == Then([Word(w)], Lex(s))
  {
    WordLengthStops(w, s);
    assert (w + s)[0] == w[0];
    assert (w + s)[..|w|] == w && (w + s)[|w|..] == s;
  }

  lemma LexTag(w: string, s: string)
    requires IsWord(w) && EndsWord(s)
    ensures Lex(":" + (w + s)) == Then([Tag(w)], Lex(s))
  {
    var t := ":" + (w + s);
    WordLengthStops(w, s);
    assert t[1..] == w + s && t[1] == w[0];
    assert t[1..|w| + 1] == w && t[|w| + 1..] == s;
  }

  /** A word followed by something that ends it. */
  lemma ReadsWord(w: string, b: string, tb: seq<Token>)
    requires IsWord(w) && Reads(b, tb) && b != "" && EndsWord(b)
    ensures Reads(w + b, [Word(w)] + tb)
  {
    forall rest: string
      ensures Lex((w + b) + rest) == Then([Word(w)] + tb, Lex(rest))
    {
      ConcatAssociates(w, b, rest);
      LexWord(w, b + rest);
      if Lex(rest).Some? {
        ConcatAssociates([Word(w)], tb, Lex(rest).value);
      }
    }
  }

  lemma ReadsTag(w: string, b: string, tb: seq<Token>)
    requires IsWord(w) && Reads(b, tb) && b != "" && EndsWord(b)
    ensures Reads(":" + (w + b), [Tag(w)] + tb)
  {
    forall rest: string
      ensures Lex((":" + (w + b)) + rest) == Then([Tag(w)] + tb, Lex(rest))
    {
      ConcatAssociates(":", w + b, rest);
      ConcatAssociates(w, b, rest);
      LexTag(w, b + rest);
      if Lex(rest).Some? {
        ConcatAssociates([Tag(w)], tb, Lex(rest).value);
      }
    }
  }

  // ----- Quoted strings -----

  lemma ReadTextStep(c: char, escaped: bool, s: string, content: string, rest: string)
    requires ReadText(s) == Some((content, rest))
    requires !escaped ==> c != '"' && c != '\\'
    ensures ReadText((if escaped then ['\\', c] else [c]) + s) == Some(([c] + content, rest))
  {
    if escaped {
      assert (['\\', c] + s)[2..] == s;
    } else {
      assert ([c] + s)[1..] == s;
    }
  }

  /** Escaping at least quotes and backslashes keeps the content and cannot end the literal early. */
  lemma {:induction false} EscapedTextReadsBack(v: string, special: set<char>, tail: string, content: string, rest: string)
    requires '"' in special && '\\' in special
    requires ReadText(tail) == Some((content, rest))
    ensures ReadText(Escape(v, special) + tail) == Some((v + content, rest))
  {
    if v == "" {
      assert Escape(v, special) + tail == tail;
      assert v + content == content;
    } else {
      var head := if v[0] in special then ['\\', v[0]] else [v[0]];
      EscapedTextReadsBack(v[1..], special, tail, content, rest);
      ReadTextStep(v[0], v[0] in special, Escape(v[1..], special) + tail, v[1..] + content, rest);
      ConcatAssociates(head, Escape(v[1..], special), tail);
      ConcatAssociates([v[0]], v[1..], content);
      assert v == [v[0]] + v[1..];
    }
  }

  /** Two passes of String.replace, backslashes first, are one pass of escaping. */
  lemma {:induction false} ReplaceTwiceIsEscape(v: string)
    ensures ReplaceAll(ReplaceAll(v, '\\', "\\\\"), '"', "\\\"") == Escape(v, {'\\', '"'})
  {
    if v != "" {
      ReplaceTwiceIsEscape(v[1..]);
      var inner := ReplaceAll(v[1..], '\\', "\\\\");
      if v[0] == '\\' {
        assert ("\\\\" + inner)[1..] == "\\" + inner;
        assert ("\\" + inner)[1..] == inner;
        assert ReplaceAll("\\" + inner, '"', "\\\"") == "\\" + ReplaceAll(inner, '"', "\\\"");
        assert ReplaceAll("\\\\" + inner, '"', "\\\"") == "\\" + ReplaceAll("\\" + inner, '"', "\\\"");
      } else {
        assert ([v[0]] + inner)[1..] == inner;
      }
    }
  }

  lemma LexQuoted(s: string, content: string, rest: string)
    requires ReadText(s) == Some((content, rest))
    ensures Lex("\"" + s) == Then([Text(content)], Lex(rest))
  {
    assert ("\"" + s)[1..] == s;
  }

  ghost predicate Unquoted(s: string) {
    forall c | c in s :: c !in {'"', '\\'}
  }

  lemma LiteralReadsBack(v: string, special: set<char>, prefix: string, suffix: string, rest: string)
    requires '"' in special && '\\' in special
    requires Unquoted(prefix) && Unquoted(suffix)
    ensures ReadText(prefix + (Escape(v, special) + (suffix + ("\"" + rest)))) == Some((prefix + (v + suffix), rest))
  {
    var quotes := {'"', '\\'};
    assert ("\"" + rest)[1..] == rest;
    EscapeNothing(suffix, quotes);
    EscapedTextReadsBack(suffix, quotes, "\"" + rest, "", rest);
    assert suffix + "" == suffix;
    var tail := suffix + ("\"" + rest);
    EscapedTextReadsBack(v, special, tail, suffix, rest);
    EscapeNothing(prefix, quotes);
    EscapedTextReadsBack(prefix, quotes, Escape(v, special) + tail, v + suffix, rest);
  }

  lemma ReadsLiteral(v: string, special: set<char>, prefix: string, suffix: string)
    requires '"' in special && '\\' in special
    requires Unquoted(prefix) && Unquoted(suffix)
    ensures Reads("\"" + (prefix + (Escape(v, special) + (suffix + "\""))), [Text(prefix + (v + suffix))])
  {
    var body := Escape(v, special) + (suffix + "\"");
    forall rest: string
      ensures Lex(("\"" + (prefix + body)) + rest) == Then([Text(prefix + (v + suffix))], Lex(rest))
    {
      LiteralReadsBack(v, special, prefix, suffix, rest);
      LexQuoted(prefix + (Escape(v, special) + (suffix + ("\"" + rest))), prefix + (v + suffix), rest);
      ConcatAssociates("\"", prefix + body, rest);
      ConcatAssociates(prefix, body, rest);
      ConcatAssociates(Escape(v, special), suffix + "\"", rest);
      ConcatAssociates(suffix, "\"", rest);
    }
  }

  lemma ReadsQuote(v: string)
    ensures Reads(Quote(v), [Text(v)])
  {
    ReplaceTwiceIsEscape(v);
    ReadsLiteral(v, {'\\', '"'}, "", "");
    assert "" + (v + "") == v;
    assert Quote(v) == "\"" + ("" + (Escape(v, {'\\', '"'}) + ("" + "\"")));
  }

  /** After section 2.4.2 decoding, a `:matches` key is the bare value between its wildcards. */
  lemma ReadsQuoteMatch(v: string, prefix: string, suffix: string)
    requires Unquoted(prefix) && Unquoted(suffix)
    ensures Reads(QuoteMatch(v, prefix, suffix), [Text(prefix + v + suffix)])
  {
    var special := {'\\', '"', '*', '?'};
    ReadsLiteral(v, special, prefix, suffix);
    ConcatAssociates(prefix, v, suffix);
    assert QuoteMatch(v, prefix, suffix) == "\"" + (prefix + (Escape(v, special) + (suffix + "\"")));
  }

  lemma QuotePlain(v: string)
    requires Unquoted(v)
    ensures Quote(v) == "\"" + v + "\""
  {
    ReplaceTwiceIsEscape(v);
    EscapeNothing(v, {'"', '\\'});
    assert {'"', '\\'} == {'\\', '"'};
  }

  // ----- Statements -----

  /** A word and the single space after it. */
  lemma ReadsWordSpace(w: string)
    requires IsWord(w)
    ensures Reads(w + " ", [Word(w)])
  {
    ReadsSpaces(" ");
    ReadsWord(w, " ", []);
    assert [Word(w)] + [] == [Word(w)];
  }

  lemma ReadsTagSpace(w: string)
    requires IsWord(w)
    ensures Reads(":" + (w + " "), [Tag(w)])
  {
    ReadsSpaces(" ");
    ReadsTag(w, " ", []);
    assert [Tag(w)] + [] == [Tag(w)];
  }

  lemma ReadsThenQuote(a: string, ta: seq<Token>, v: string)
    requires Reads(a, ta)
    ensures Reads(a + Quote(v), ta + [Text(v)])
  {
    ReadsQuote(v);
    ReadsConcat(a, ta, Quote(v), [Text(v)]);
  }

  lemma ReadsThenPunctuation(a: string, ta: seq<Token>, c: char)
    requires Reads(a, ta) && Punctuation(c).Some?
    ensures Reads(a + [c], ta + [Punctuation(c).value])
  {
    ReadsPunctuation(c);
    ReadsConcat(a, ta, [c], [Punctuation(c).value]);
  }

  /** `word "text";` */
  lemma ReadsTextStatement(name: string, text: string)
    requires IsWord(name)
    ensures Reads(name + " " + Quote(text) + ";", CommandTokens(Simple(name, [TextArgument(text)])))
  {
    ReadsWordSpace(name);
    ReadsThenQuote(name + " ", [Word(name)], text);
    ReadsThenPunctuation(name + " " + Quote(text), [Word(name)] + [Text(text)], ';');
    assert [TextArgument(text)][1..] == [];
    assert ArgumentTokens([TextArgument(text)]) == [Text(text)];
    ConcatAssociates([Word(name)], [Text(text)], [Semicolon]);
  }

  /** `word;` */
  lemma ReadsBareStatement(name: string)
    requires IsWord(name)
    ensures Reads(name + ";", CommandTokens(Simple(name, [])))
  {
    ReadsPunctuation(';');
    ReadsWord(name, ";", [Semicolon]);
    assert ArgumentTokens([]) + [Semicolon] == [Semicolon];
  }

  /** `word :tag ` */
  lemma ReadsWordTag(w: string, tag: string)
    requires IsWord(w) && IsWord(tag)
    ensures Reads(w + " " + (":" + (tag + " ")), [Word(w), Tag(tag)])
  {
    ReadsWordSpace(w);
    ReadsTagSpace(tag);
    ReadsConcat(w + " ", [Word(w)], ":" + (tag + " "), [Tag(tag)]);
    assert [Word(w)] + [Tag(tag)] == [Word(w), Tag(tag)];
  }

  lemma ReadsSpaceBracket()
    ensures Reads(" [", [OpenBracket])
  {
    ReadsSpaces(" ");
    ReadsPunctuation('[');
    ReadsConcat(" ", [], ['['], [OpenBracket]);
    assert [] + [OpenBracket] == [OpenBracket];
  }

  lemma LiteralHeads()
    ensures "pipe" + " " + (":" + ("copy" + " ")) == "pipe :copy "
    ensures "fileinto" + " " + (":" + ("create" + " ")) == "fileinto :create "
  {
  }

  lemma ReadsNotifyScript(script: string)
    ensures Reads("pipe :copy " + Quote(script) + " [", [Word("pipe"), Tag("copy"), Text(script), OpenBracket])
  {
    var t := [Word("pipe"), Tag("copy")];
    ReadsWordTag("pipe", "copy");
    LiteralHeads();
    ReadsThenQuote("pipe :copy ", t, script);
    ReadsSpaceBracket();
    ReadsConcat("pipe :copy " + Quote(script), t + [Text(script)], " [", [OpenBracket]);
    assert t + [Text(script)] + [OpenBracket] == [Word("pipe"), Tag("copy"), Text(script), OpenBracket];
  }

  lemma ReadsNotify(script: string, folder: string)
    ensures Reads(NotifyCall(script, folder) + ";", CommandTokens(PipeCommand(script, folder)))
  {
    var a, t := "pipe :copy " + Quote(script) + " [", [Word("pipe"), Tag("copy"), Text(script), OpenBracket];
    ReadsNotifyScript(script);
    ReadsThenQuote(a, t, folder);
    ReadsThenPunctuation(a + Quote(folder), t + [Text(folder)], ']');
    ReadsThenPunctuation(a + Quote(folder) + "]", t + [Text(folder)] + [CloseBracket], ';');
    PipeTokens(script, folder);
  }

  lemma PipeTokens(script: string, folder: string)
    ensures CommandTokens(PipeCommand(script, folder))
         == [Word("pipe"), Tag("copy"), Text(script), OpenBracket] + [Text(folder)] + [CloseBracket] + [Semicolon]
  {
    var list := ListArgument([folder]);
    assert [list][1..] == [];
    assert ItemTokens([folder]) == [Text(folder), CloseBracket];
    assert ArgumentTokens([list]) == [OpenBracket, Text(folder), CloseBracket];
    ArgumentTokensStep(TextArgument(script), [list]);
    ArgumentTokensStep(TagArgument("copy"), [TextArgument(script), list]);
    assert [TagArgument("copy")] + [TextArgument(script), list] == [TagArgument("copy"), TextArgument(script), list];
    assert [TextArgument(script)] + [list] == [TextArgument(script), list];
  }

  lemma ArgumentTokensStep(a: Argument, args: seq<Argument>)
    ensures ArgumentTokens([a] + args) == ArgumentToken(a) + ArgumentTokens(args)
  {
    assert ([a] + args)[1..] == args;
  }

  lemma HeaderTestTokens(match_: string, header: string, key: string)
    ensures TestTokens(Some(HeaderTest(match_, header, key)))
         == [Word("header"), Tag(match_), Text(header), Text(key)]
  {
    var m, h, k := TagArgument(match_), TextArgument(header), TextArgument(key);
    assert [k] == [k] + [] && [h, k] == [h] + [k] && [m, h, k] == [m] + [h, k];
    ArgumentTokensStep(k, []);
    ArgumentTokensStep(h, [k]);
    ArgumentTokensStep(m, [h, k]);
  }

  /** `header :match "header" <key>`, for any text that reads as the key. */
  lemma ReadsHeaderTest(match_: string, header: string, keyText: string, key: string)
    requires IsWord(match_) && Reads(keyText, [Text(key)])
    ensures Reads("header " + (":" + (match_ + " ")) + Quote(header) + " " + keyText,
                  TestTokens(Some(HeaderTest(match_, header, key))))
  {
    var tag, h := ":" + (match_ + " "), Quote(header);
    ReadsWordSpace("header");
    assert "header" + " " == "header ";
    ReadsTagSpace(match_);
    ReadsConcat("header ", [Word("header")], tag, [Tag(match_)]);
    var t := [Word("header")] + [Tag(match_)];
    ReadsQuote(header);
    ReadsConcat("header " + tag, t, h, [Text(header)]);
    ReadsSpaces(" ");
    ReadsConcat("header " + tag + h, t + [Text(header)], " ", []);
    ReadsConcat("header " + tag + h + " ", t + [Text(header)] + [], keyText, [Text(key)]);
    HeaderTestTokens(match_, header, key);
    assert t + [Text(header)] + [] + [Text(key)] == [Word("header"), Tag(match_), Text(header), Text(key)];
  }

  // ----- Lines -----

  /** Every line with its end. */
  function Terminated(lines: seq<string>): string
  {
    if lines == [] then "" else lines[0] + "\n" + Terminated(lines[1..])
  }

  lemma {:induction false} TerminatedConcat(a: seq<string>, b: seq<string>)
    ensures Terminated(a + b) == Terminated(a) + Terminated(b)
  {
    if a == [] {
      assert a + b == b;
    } else {
      assert (a + b)[1..] == a[1..] + b;
      TerminatedConcat(a[1..], b);
      ConcatAssociates(a[0] + "\n", Terminated(a[1..]), Terminated(b));
    }
  }

  /** Joining lines that end in an empty one is terminating each of them. */
  lemma {:induction false} JoinTerminates(lines: seq<string>)
    ensures Join(lines + [""], "\n") == Terminated(lines)
  {
    if lines == [] {
      assert lines + [""] == [""];
    } else {
      assert (lines + [""])[1..] == lines[1..] + [""];
      JoinTerminates(lines[1..]);
    }
  }

  lemma ReadsLine(line: string, t: seq<Token>, lines: seq<string>, ts: seq<Token>)
    requires Reads(line, t) && Reads(Terminated(lines), ts)
    ensures Reads(Terminated([line] + lines), t + ts)
  {
    ReadsSpaces("\n");
    ReadsConcat(line, t, "\n", []);
    assert t + [] == t;
    ReadsConcat(line + "\n", t, Terminated(lines), ts);
    assert ([line] + lines)[1..] == lines;
  }

  lemma ReadsIndented(line: string, t: seq<Token>, lines: seq<string>, ts: seq<Token>)
    requires Reads(line, t) && Reads(Terminated(lines), ts)
    ensures Reads(Terminated(["    " + line] + lines), t + ts)
  {
    ReadsSpaces("    ");
    ReadsConcat("    ", [], line, t);
    assert [] + t == t;
    ReadsLine("    " + line, t, lines, ts);
  }

  lemma ReadsNoLines()
    ensures Reads(Terminated([]), [])
  {
    ReadsSpaces("");
  }

  lemma ReadsBlank(lines: seq<string>, ts: seq<Token>)
    requires Reads(Terminated(lines), ts)
    ensures Reads(Terminated([""] + lines), ts)
  {
    ReadsSpaces("");
    ReadsLine("", [], lines, ts);
    assert [] + ts == ts;
  }

  lemma {:induction false} LineLengthStops(text: string, rest: string)
    requires forall c | c in text :: c != '\n'
    ensures LineLength(text + ("\n" + rest)) == |text| + 1
  {
    if text == "" {
      assert text + ("\n" + rest) == "\n" + rest;
    } else {
      assert text[0] in text;
      forall c | c in text[1..]
        ensures c in text
      {
      }
      LineLengthStops(text[1..], rest);
      assert (text + ("\n" + rest))[1..] == text[1..] + ("\n" + rest);
    }
  }

  lemma LexComment(text: string, after: string)
    requires text != "" && text[0] == '#' && forall c | c in text :: c != '\n'
    ensures Lex(text + ("\n" + after)) == Lex(after)
  {
    var s := text + ("\n" + after);
    LineLengthStops(text, after);
    assert s[0] == '#' && s[|text| + 1..] == after;
  }

  lemma TerminatedCons(text: string, lines: seq<string>, rest: string)
    ensures Terminated([text] + lines) + rest == text + ("\n" + (Terminated(lines) + rest))
  {
    var tail := Terminated(lines);
    assert ([text] + lines)[1..] == lines;
    assert Terminated([text] + lines) == text + "\n" + tail;
    ConcatAssociates(text + "\n", tail, rest);
    ConcatAssociates(text, "\n", tail + rest);
  }

  lemma ReadsComment(text: string, lines: seq<string>, ts: seq<Token>)
    requires text != "" && text[0] == '#' && forall c | c in text :: c != '\n'
    requires Reads(Terminated(lines), ts)
    ensures Reads(Terminated([text] + lines), ts)
  {
    forall rest: string
      ensures Lex(Terminated([text] + lines) + rest) == Then(ts, Lex(rest))
    {
      TerminatedCons(text, lines, rest);
      LexComment(text, Terminated(lines) + rest);
    }
  }

  // ----- Rules -----

  lemma HeaderHeads()
    ensures "header " + (":" + ("contains" + " ")) == "header :contains "
    ensures "header " + (":" + ("is" + " ")) == "header :is "
    ensures "header " + (":" + ("matches" + " ")) == "header :matches "
  {
  }

  lemma ReadsCondition(rule: Rule)
    ensures RuleTest(rule).Some? <==> Condition(rule).Some?
    ensures RuleTest(rule).Some? ==> Reads(Condition(rule).value, TestTokens(RuleTest(rule)))
  {
    var header := HeaderFor(rule.conditionField);
    var v := rule.conditionValue;
    if header.Some? {
      HeaderHeads();
      match rule.conditionOperator
      case ContainsText =>
        ReadsQuote(v);
        ReadsHeaderTest("contains", header.value, Quote(v), v);
      case EqualsText =>
        ReadsQuote(v);
        ReadsHeaderTest("is", header.value, Quote(v), v);
      case StartsWithText =>
        ReadsQuoteMatch(v, "", "*");
        assert "" + v + "*" == v + "*";
        ReadsHeaderTest("matches", header.value, QuoteMatch(v, "", "*"), v + "*");
      case EndsWithText =>
        ReadsQuoteMatch(v, "*", "");
        assert "*" + v + "" == "*" + v;
        ReadsHeaderTest("matches", header.value, QuoteMatch(v, "*", ""), "*" + v);
      case OtherOperator(_) =>
    }
  }

  /** One statement a line. */
  ghost predicate Prints(lines: seq<string>, cs: seq<Command>) {
    |lines| == |cs| && forall i | 0 <= i < |cs| :: Reads(lines[i], CommandTokens(cs[i]))
  }

  lemma QuoteBackslashed(w: string)
    requires Unquoted(w)
    ensures Quote("\\" + w) == "\"\\\\" + w + "\""
  {
    var special := {'\\', '"'};
    var text := "\\" + w;
    ReplaceTwiceIsEscape(text);
    assert text[1..] == w;
    EscapeNothing(w, special);
    assert Escape(text, special) == ['\\', '\\'] + w;
    assert "\"" + (['\\', '\\'] + w) == "\"\\\\" + w;
  }

  /** A statement on a text that is one backslash and a plain word. */
  lemma ReadsBackslashed(name: string, w: string, line: string, text: string)
    requires IsWord(name) && Unquoted(w) && text == "\\" + w
    requires line == name + " " + ("\"\\\\" + w + "\"") + ";"
    ensures Reads(line, CommandTokens(Simple(name, [TextArgument(text)])))
  {
    QuoteBackslashed(w);
    ReadsTextStatement(name, text);
  }

  lemma ReadsSetFlag()
    ensures Reads("setflag \"\\\\Seen\";", CommandTokens(Simple("setflag", [TextArgument("\\Seen")])))
  {
    ReadsBackslashed("setflag", "Seen", "setflag \"\\\\Seen\";", "\\Seen");
  }

  lemma StatementHeads()
    ensures "fileinto" + " " == "fileinto " && "redirect" + " " == "redirect "
    ensures "stop" + ";" == "stop;" && "discard" + ";" == "discard;"
  {
  }

  lemma ReadsBody(rule: Rule, notify: string)
    ensures RuleActions(rule, notify).Some? <==> Body(rule, notify).Some?
    ensures RuleActions(rule, notify).Some? ==> Prints(Body(rule, notify).value, RuleActions(rule, notify).value)
  {
    StatementHeads();
    ReadsBareStatement("stop");
    match rule.action
    case MoveTo =>
      if rule.targetFolder.Some? {
        ReadsTextStatement("fileinto", rule.targetFolder.value);
        ReadsNotify(notify, rule.targetFolder.value);
      }
    case MarkRead => ReadsSetFlag();
    case Forward => ReadsTextStatement("redirect", rule.conditionValue);
    case Discard => ReadsBareStatement("discard");
    case OtherAction(_) =>
  }

  lemma {:induction false} ReadsStatements(body: seq<string>, cs: seq<Command>, lines: seq<string>, ts: seq<Token>)
    requires Prints(body, cs) && Reads(Terminated(lines), ts)
    ensures Reads(Terminated(Indented(body) + lines), CommandsTokens(cs) + ts)
  {
    if body == [] {
      assert Indented(body) + lines == lines;
      assert CommandsTokens(cs) + ts == ts;
    } else {
      assert Reads(body[0], CommandTokens(cs[0]));
      assert Prints(body[1..], cs[1..]);
      ReadsStatements(body[1..], cs[1..], lines, ts);
      var rest := Indented(body[1..]) + lines;
      ReadsIndented(body[0], CommandTokens(cs[0]), rest, CommandsTokens(cs[1..]) + ts);
      ConcatAssociates(["    " + body[0]], Indented(body[1..]), lines);
      ConcatAssociates(CommandTokens(cs[0]), CommandsTokens(cs[1..]), ts);
    }
  }

  lemma ReadsIf(testText: string, test: Option<Test>)
    requires Reads(testText, TestTokens(test))
    ensures Reads("if " + testText + " {", [Word("if")] + (TestTokens(test) + [OpenBrace]))
  {
    ReadsWordSpace("if");
    assert "if" + " " == "if ";
    ReadsConcat("if ", [Word("if")], testText, TestTokens(test));
    ReadsSpaces(" ");
    ReadsThenPunctuation(" ", [], '{');
    assert " " + "{" == " {";
    assert [] + [OpenBrace] == [OpenBrace];
    ReadsConcat("if " + testText, [Word("if")] + TestTokens(test), " {", [OpenBrace]);
    ConcatAssociates([Word("if")], TestTokens(test), [OpenBrace]);
  }

  lemma ReadsBraceLine(lines: seq<string>, ts: seq<Token>)
    requires Reads(Terminated(lines), ts)
    ensures Reads(Terminated(["}"] + lines), [CloseBrace] + ts)
  {
    ReadsPunctuation('}');
    ReadsLine(['}'], [CloseBrace], lines, ts);
  }

  lemma ReadsOpening(testText: string, test: Option<Test>, lines: seq<string>, ts: seq<Token>)
    requires Reads(testText, TestTokens(test)) && Reads(Terminated(lines), ts)
    ensures Reads(Terminated(["if " + testText + " {"] + lines), ([Word("if")] + (TestTokens(test) + [OpenBrace])) + ts)
  {
    ReadsIf(testText, test);
    ReadsLine("if " + testText + " {", [Word("if")] + (TestTokens(test) + [OpenBrace]), lines, ts);
  }

  lemma ReadsClosing(lines: seq<string>, ts: seq<Token>)
    requires Reads(Terminated(lines), ts)
    ensures Reads(Terminated(["}"] + ([""] + lines)), [CloseBrace] + ts)
  {
    ReadsBlank(lines, ts);
    ReadsBraceLine([""] + lines, ts);
  }

  lemma ReadsBlock(testText: string, test: Option<Test>, body: seq<string>, cs: seq<Command>, lines: seq<string>, ts: seq<Token>)
    requires Reads(testText, TestTokens(test)) && Prints(body, cs) && Reads(Terminated(lines), ts)
    ensures Reads(Terminated(Block(testText, body) + lines), CommandTokens(Conditional("if", test, cs)) + ts)
  {
    var closing := ["}"] + ([""] + lines);
    ReadsClosing(lines, ts);
    ReadsStatements(body, cs, closing, [CloseBrace] + ts);
    ReadsOpening(testText, test, Indented(body) + closing, CommandsTokens(cs) + ([CloseBrace] + ts));
    BlockShape(testText, body, lines);
    ConditionalShape(test, cs, ts);
  }

  lemma BlockShape(testText: string, body: seq<string>, lines: seq<string>)
    ensures Block(testText, body) + lines
         == ["if " + testText + " {"] + (Indented(body) + (["}"] + ([""] + lines)))
  {
    var head := ["if " + testText + " {"];
    ConcatAssociates(head + Indented(body), ["}", ""], lines);
    ConcatAssociates(head, Indented(body), ["}", ""] + lines);
    assert ["}", ""] + lines == ["}"] + ([""] + lines);
  }

  lemma ConditionalShape(test: Option<Test>, cs: seq<Command>, ts: seq<Token>)
    ensures CommandTokens(Conditional("if", test, cs)) + ts
         == ([Word("if")] + (TestTokens(test) + [OpenBrace])) + (CommandsTokens(cs) + ([CloseBrace] + ts))
  {
    var block := CommandsTokens(cs) + [CloseBrace];
    var w, t := [Word("if")], TestTokens(test);
    ConcatAssociates(w, t + ([OpenBrace] + block), ts);
    ConcatAssociates(t, [OpenBrace] + block, ts);
    ConcatAssociates([OpenBrace], block, ts);
    ConcatAssociates(CommandsTokens(cs), [CloseBrace], ts);
    var inner := CommandsTokens(cs) + ([CloseBrace] + ts);
    ConcatAssociates(w, t + [OpenBrace], inner);
    ConcatAssociates(t, [OpenBrace], inner);
  }

  lemma ReadsRule(rule: Rule, notify: string, lines: seq<string>, ts: seq<Token>)
    requires Reads(Terminated(lines), ts)
    ensures Reads(Terminated(RuleLines(rule, notify) + lines), CommandsTokens(RuleCommands(rule, notify)) + ts)
  {
    ReadsCondition(rule);
    ReadsBody(rule, notify);
    var test, actions := RuleTest(rule), RuleActions(rule, notify);
    if test.None? || actions.None? {
      assert RuleLines(rule, notify) + lines == lines;
      assert CommandsTokens(RuleCommands(rule, notify)) + ts == ts;
    } else {
      ReadsBlock(Condition(rule).value, test, Body(rule, notify).value, actions.value, lines, ts);
      OneCommandTokens(Conditional("if", test, actions.value));
    }
  }

  lemma OneCommandTokens(c: Command)
    ensures CommandsTokens([c]) == CommandTokens(c)
  {
    assert [c][1..] == [];
  }

  lemma {:induction false} CommandsTokensConcat(a: seq<Command>, b: seq<Command>)
    ensures CommandsTokens(a + b) == CommandsTokens(a) + CommandsTokens(b)
  {
    if a == [] {
      assert a + b == b;
    } else {
      assert (a + b)[1..] == a[1..] + b;
      CommandsTokensConcat(a[1..], b);
      ConcatAssociates(CommandTokens(a[0]), CommandsTokens(a[1..]), CommandsTokens(b));
    }
  }

  lemma {:induction false} ReadsAllRules(rules: seq<Rule>, notify: string, lines: seq<string>, ts: seq<Token>)
    requires Reads(Terminated(lines), ts)
    ensures Reads(Terminated(AllRuleLines(rules, notify) + lines), CommandsTokens(AllRuleCommands(rules, notify)) + ts)
  {
    if rules == [] {
      assert AllRuleLines(rules, notify) + lines == lines;
      assert CommandsTokens(AllRuleCommands(rules, notify)) + ts == ts;
    } else {
      var more, tokens := AllRuleLines(rules[1..], notify), CommandsTokens(AllRuleCommands(rules[1..], notify));
      ReadsAllRules(rules[1..], notify, lines, ts);
      ReadsRule(rules[0], notify, more + lines, tokens + ts);
      ConcatAssociates(RuleLines(rules[0], notify), more, lines);
      ConcatAssociates(CommandsTokens(RuleCommands(rules[0], notify)), tokens, ts);
      CommandsTokensConcat(RuleCommands(rules[0], notify), AllRuleCommands(rules[1..], notify));
    }
  }

  // ----- The whole script -----

  lemma ReadsComma()
    ensures Reads(", ", [Comma])
  {
    ReadsSpaces(" ");
    ReadsPunctuation(',');
    ReadsConcat([','], [Comma], " ", []);
    assert [Comma] + [] == [Comma];
    assert "," + " " == ", ";
  }

  lemma ReadsPlainText(v: string)
    requires Unquoted(v)
    ensures Reads("\"" + v + "\"", [Text(v)])
  {
    QuotePlain(v);
    ReadsQuote(v);
  }

  /** One string of a list and the comma after it. */
  lemma ReadsItem(v: string, items: seq<string>, b: string)
    requires Unquoted(v) && items != [] && Reads(b, ItemTokens(items))
    ensures Reads(("\"" + v + "\"") + (", " + b), ItemTokens([v] + items))
  {
    ReadsComma();
    ReadsConcat(", ", [Comma], b, ItemTokens(items));
    ReadsPlainText(v);
    ReadsConcat("\"" + v + "\"", [Text(v)], ", " + b, [Comma] + ItemTokens(items));
    assert ([v] + items)[1..] == items;
    assert [Text(v), Comma] + ItemTokens(items) == [Text(v)] + ([Comma] + ItemTokens(items));
  }

  lemma ReadsLastItem(v: string)
    requires Unquoted(v)
    ensures Reads(("\"" + v + "\"") + "]", ItemTokens([v]))
  {
    ReadsPlainText(v);
    ReadsThenPunctuation("\"" + v + "\"", [Text(v)], ']');
    assert [Text(v)] + [CloseBracket] == [Text(v), CloseBracket];
  }

  /** `name [items];` */
  lemma ReadsListStatement(name: string, items: seq<string>, list: string)
    requires IsWord(name) && items != [] && Reads(list, ItemTokens(items))
    ensures Reads(name + (" [" + (list + ";")), CommandTokens(Simple(name, [ListArgument(items)])))
  {
    ReadsSpaceBracket();
    ReadsThenPunctuation(list, ItemTokens(items), ';');
    ReadsConcat(" [", [OpenBracket], list + ";", ItemTokens(items) + [Semicolon]);
    ReadsWord(name, " [" + (list + ";"), [OpenBracket] + (ItemTokens(items) + [Semicolon]));
    var arg := ListArgument(items);
    ArgumentTokensStep(arg, []);
    assert [arg] + [] == [arg];
    assert ArgumentTokens([arg]) == [OpenBracket] + ItemTokens(items);
    ConcatAssociates([OpenBracket], ItemTokens(items), [Semicolon]);
  }

  function FiveItems(a: string, b: string, c: string, d: string, e: string): string {
    ("\"" + a + "\"") + (", " + (("\"" + b + "\"") + (", " + (("\"" + c + "\"") + (", " +
    (("\"" + d + "\"") + (", " + (("\"" + e + "\"") + "]"))))))))
  }

  lemma ReadsFiveItems(a: string, b: string, c: string, d: string, e: string)
    requires Unquoted(a) && Unquoted(b) && Unquoted(c) && Unquoted(d) && Unquoted(e)
    ensures Reads(FiveItems(a, b, c, d, e), ItemTokens([a, b, c, d, e]))
  {
    ReadsLastItem(e);
    var l1 := ("\"" + e + "\"") + "]";
    ReadsItem(d, [e], l1);
    var l2 := ("\"" + d + "\"") + (", " + l1);
    assert [d] + [e] == [d, e];
    ReadsItem(c, [d, e], l2);
    var l3 := ("\"" + c + "\"") + (", " + l2);
    assert [c] + [d, e] == [c, d, e];
    ReadsItem(b, [c, d, e], l3);
    assert [b] + [c, d, e] == [b, c, d, e];
    ReadsItem(a, [b, c, d, e], ("\"" + b + "\"") + (", " + l3));
    assert [a] + [b, c, d, e] == [a, b, c, d, e];
  }

  lemma RequireText()
    ensures "require" + (" [" + (FiveItems("copy", "fileinto", "imap4flags", "mailbox", "vnd.dovecot.pipe") + ";"))
         == REQUIRE_LINE
  {
    var last := ("\"" + "vnd.dovecot.pipe" + "\"") + "]";
    RequireTail(last);
    RequireMiddle(last);
    RequireHead(("\"" + "imap4flags" + "\"") + (", " + (("\"" + "mailbox" + "\"") + (", " + last))));
  }

  lemma RequireTail(last: string)
    requires last == ("\"" + "vnd.dovecot.pipe" + "\"") + "]"
    ensures last + ";" == "\"vnd.dovecot.pipe\"];"
  {
  }

  lemma RequireMiddle(last: string)
    ensures (("\"" + "imap4flags" + "\"") + (", " + (("\"" + "mailbox" + "\"") + (", " + last)))) + ";"
         == "\"imap4flags\", \"mailbox\", " + (last + ";")
  {
    assert ("\"" + "imap4flags" + "\"") + ", " == "\"imap4flags\", ";
    assert ("\"" + "mailbox" + "\"") + ", " == "\"mailbox\", ";
    assert "\"imap4flags\", " + "\"mailbox\", " == "\"imap4flags\", \"mailbox\", ";
  }

  lemma RequireHead(tail: string)
    ensures "require" + (" [" + ((("\"" + "copy" + "\"") + (", " + (("\"" + "fileinto" + "\"") + (", " + tail)))) + ";"))
         == "require [\"copy\", \"fileinto\", " + (tail + ";")
  {
    assert ("\"" + "copy" + "\"") + ", " == "\"copy\", ";
    assert ("\"" + "fileinto" + "\"") + ", " == "\"fileinto\", ";
    assert "\"copy\", " + "\"fileinto\", " == "\"copy\", \"fileinto\", ";
    assert "require" + " [" == "require [";
    assert "require [" + "\"copy\", \"fileinto\", " == "require [\"copy\", \"fileinto\", ";
  }

  lemma ReadsRequire()
    ensures Reads(REQUIRE_LINE, CommandTokens(Simple("require", [ListArgument(REQUIRED)])))
  {
    ReadsFiveItems("copy", "fileinto", "imap4flags", "mailbox", "vnd.dovecot.pipe");
    ReadsListStatement("require", REQUIRED, FiveItems("copy", "fileinto", "imap4flags", "mailbox", "vnd.dovecot.pipe"));
    RequireText();
  }

  /** `fileinto :create "folder";` with any word and tag. */
  lemma ReadsTaggedStatement(name: string, tag: string, text: string)
    requires IsWord(name) && IsWord(tag)
    ensures Reads(name + " " + (":" + (tag + " ")) + Quote(text) + ";",
                  CommandTokens(Simple(name, [TagArgument(tag), TextArgument(text)])))
  {
    var head := name + " " + (":" + (tag + " "));
    ReadsWordTag(name, tag);
    ReadsThenQuote(head, [Word(name), Tag(tag)], text);
    ReadsThenPunctuation(head + Quote(text), [Word(name), Tag(tag)] + [Text(text)], ';');
    ArgumentTokensStep(TextArgument(text), []);
    ArgumentTokensStep(TagArgument(tag), [TextArgument(text)]);
    assert [TextArgument(text)] + [] == [TextArgument(text)];
    assert [Text(text)] + [] == [Text(text)];
    assert [TagArgument(tag)] + [TextArgument(text)] == [TagArgument(tag), TextArgument(text)];
    assert [Word(name), Tag(tag)] + [Text(text)] + [Semicolon] == [Word(name)] + (([Tag(tag)] + [Text(text)]) + [Semicolon]);
  }

  lemma ReadsPlainHeaderTest(match_: string, header: string, key: string)
    requires IsWord(match_) && Unquoted(header) && Unquoted(key)
    ensures Reads("header " + (":" + (match_ + " ")) + ("\"" + header + "\"") + " " + ("\"" + key + "\""),
                  TestTokens(Some(HeaderTest(match_, header, key))))
  {
    ReadsPlainText(key);
    QuotePlain(header);
    ReadsHeaderTest(match_, header, "\"" + key + "\"", key);
  }

  lemma SpamTestText()
    ensures "header " + (":" + ("contains" + " ")) + ("\"" + "X-Spam-Flag" + "\"") + " " + ("\"" + "YES" + "\"")
         == SPAM_TEST
  {
  }

  function SpamLines(options: Options): seq<string> {
    ["fileinto :create " + Quote(options.junkFolder) + ";",
     NotifyCall(options.notifyScript, options.junkFolder) + ";",
     "stop;"]
  }

  lemma SpamLinesPrint(options: Options)
    ensures Prints(SpamLines(options), SpamBlock(options).body)
  {
    ReadsTaggedStatement("fileinto", "create", options.junkFolder);
    LiteralHeads();
    ReadsNotify(options.notifyScript, options.junkFolder);
    ReadsBareStatement("stop");
    StatementHeads();
  }

  lemma ReadsSpamTest()
    ensures Reads(SPAM_TEST, TestTokens(SpamBlock(Options("", "")).test))
  {
    ReadsPlainHeaderTest("contains", "X-Spam-Flag", "YES");
    SpamTestText();
  }

  lemma ReadsSpamBlock(options: Options, lines: seq<string>, ts: seq<Token>)
    requires Reads(Terminated(lines), ts)
    ensures Reads(Terminated(Block(SPAM_TEST, SpamLines(options)) + lines),
                  CommandTokens(SpamBlock(options)) + ts)
  {
    ReadsSpamTest();
    SpamLinesPrint(options);
    ReadsBlock(SPAM_TEST, SpamBlock(options).test,
               SpamLines(options), SpamBlock(options).body, lines, ts);
  }

  lemma ReadsCommentedLine(first: string, t: seq<Token>, comment: string, lines: seq<string>, ts: seq<Token>)
    requires Reads(first, t) && Reads(Terminated(lines), ts)
    requires comment != "" && comment[0] == '#' && forall c | c in comment :: c != '\n'
    ensures Reads(Terminated([first] + ([""] + ([comment] + ([""] + lines)))), t + ts)
  {
    ReadsBlank(lines, ts);
    ReadsComment(comment, [""] + lines, ts);
    ReadsBlank([comment] + ([""] + lines), ts);
    ReadsLine(first, t, [""] + ([comment] + ([""] + lines)), ts);
  }

  lemma CommentIsOneLine()
    ensures COMMENT_LINE != "" && COMMENT_LINE[0] == '#' && forall c | c in COMMENT_LINE :: c != '\n'
  {
    assert COMMENT_LINE[0] == "# Generated by stampyx-api. "[0];
  }

  lemma ReadsHeading(lines: seq<string>, ts: seq<Token>)
    requires Reads(Terminated(lines), ts)
    ensures Reads(Terminated([REQUIRE_LINE] + ([""] + ([COMMENT_LINE] + ([""] + lines)))),
                  CommandTokens(Simple("require", [ListArgument(REQUIRED)])) + ts)
  {
    ReadsRequire();
    CommentIsOneLine();
    ReadsCommentedLine(REQUIRE_LINE, CommandTokens(Simple("require", [ListArgument(REQUIRED)])), COMMENT_LINE, lines, ts);
  }

  lemma IndentedThree(a: string, b: string, c: string)
    ensures Indented([a, b, c]) == ["    " + a, "    " + b, "    " + c]
  {
    assert [a, b, c][1..] == [b, c] && [b, c][1..] == [c] && [c][1..] == [];
    assert Indented([c]) == ["    " + c];
    assert Indented([b, c]) == ["    " + b, "    " + c];
  }

  lemma PreambleShape(options: Options)
    ensures Preamble(options)
         == [REQUIRE_LINE, "", COMMENT_LINE, ""]
            + Block(SPAM_TEST, SpamLines(options))
  {
    var call, junk := NotifyCall(options.notifyScript, options.junkFolder), Quote(options.junkFolder);
    IndentedThree("fileinto :create " + junk + ";", call + ";", "stop;");
  }

  function UserLines(rules: seq<Rule>, options: Options): seq<string> {
    AllRuleLines(SortByPosition(ActiveRules(rules)), options.notifyScript)
    + ([NotifyCall(options.notifyScript, "INBOX") + ";"] + [])
  }

  function UserTokens(rules: seq<Rule>, options: Options): seq<Token> {
    CommandsTokens(AllRuleCommands(SortByPosition(ActiveRules(rules)), options.notifyScript))
    + (CommandTokens(PipeCommand(options.notifyScript, "INBOX")) + [])
  }

  lemma ReadsUserLines(rules: seq<Rule>, options: Options)
    ensures Reads(Terminated(UserLines(rules, options)), UserTokens(rules, options))
  {
    var notify := options.notifyScript;
    var call := NotifyCall(notify, "INBOX") + ";";
    var pipe := CommandTokens(PipeCommand(notify, "INBOX"));
    ReadsNoLines();
    ReadsNotify(notify, "INBOX");
    ReadsLine(call, pipe, [], []);
    ReadsAllRules(SortByPosition(ActiveRules(rules)), notify, [call] + [], pipe + []);
  }

  /** The generated text reads as the tokens of its tree. */
  lemma ReadsScript(rules: seq<Rule>, options: Options)
    ensures Lex(Script(rules, options)) == Some(CommandsTokens(Tree(rules, options)))
  {
    var user, tokens := UserLines(rules, options), UserTokens(rules, options);
    ReadsUserLines(rules, options);
    ReadsSpamBlock(options, user, tokens);
    var spam := Block(SPAM_TEST, SpamLines(options));
    ReadsHeading(spam + user, CommandTokens(SpamBlock(options)) + tokens);
    FourLines(REQUIRE_LINE, COMMENT_LINE, spam + user);
    ScriptLines(rules, options);
    TreeTokens(rules, options);
    LexWhole(Script(rules, options), CommandsTokens(Tree(rules, options)));
  }

  lemma LexWhole(s: string, ts: seq<Token>)
    requires Reads(s, ts)
    ensures Lex(s) == Some(ts)
  {
    assert s + "" == s && ts + [] == ts;
    assert Lex(s + "") == Then(ts, Lex(""));
  }

  lemma FourLines(first: string, comment: string, lines: seq<string>)
    ensures [first] + ([""] + ([comment] + ([""] + lines))) == [first, "", comment, ""] + lines
  {
  }

  lemma ScriptLines(rules: seq<Rule>, options: Options)
    ensures Script(rules, options)
         == Terminated([REQUIRE_LINE, "", COMMENT_LINE, ""]
                       + (Block(SPAM_TEST, SpamLines(options)) + UserLines(rules, options)))
  {
    var heading := [REQUIRE_LINE, "", COMMENT_LINE, ""];
    var spam := Block(SPAM_TEST, SpamLines(options));
    var user := AllRuleLines(SortByPosition(ActiveRules(rules)), options.notifyScript);
    var call := [NotifyCall(options.notifyScript, "INBOX") + ";"];
    PreambleShape(options);
    assert Closing(options) == call + [""];
    ConcatAssociates(Preamble(options) + user, call, [""]);
    JoinTerminates(Preamble(options) + user + call);
    ConcatAssociates(heading + spam, user, call);
    ConcatAssociates(heading, spam, user + call);
    assert call + [] == call;
  }

  lemma TreeTokens(rules: seq<Rule>, options: Options)
    ensures CommandsTokens(Tree(rules, options))
         == CommandTokens(Simple("require", [ListArgument(REQUIRED)]))
            + (CommandTokens(SpamBlock(options)) + UserTokens(rules, options))
  {
    var require_, spam := Simple("require", [ListArgument(REQUIRED)]), SpamBlock(options);
    var pipe := PipeCommand(options.notifyScript, "INBOX");
    var user := AllRuleCommands(SortByPosition(ActiveRules(rules)), options.notifyScript);
    CommandsTokensConcat([require_, spam], user + [pipe]);
    assert [require_, spam] == [require_] + [spam];
    CommandsTokensConcat([require_], [spam]);
    OneCommandTokens(require_);
    OneCommandTokens(spam);
    OneCommandTokens(pipe);
    CommandsTokensConcat(user, [pipe]);
    assert CommandTokens(pipe) + [] == CommandTokens(pipe);
    ConcatAssociates(CommandTokens(require_), CommandTokens(spam), CommandsTokens(user + [pipe]));
  }

  // ----- The round trip -----

  lemma {:induction false} RuleTreesWellFormed(rules: seq<Rule>, notify: string, rest: seq<Command>)
    requires WellFormed(rest)
    ensures WellFormed(AllRuleCommands(rules, notify) + rest)
  {
    if rules == [] {
      assert AllRuleCommands(rules, notify) + rest == rest;
    } else {
      var more := AllRuleCommands(rules[1..], notify) + rest;
      RuleTreesWellFormed(rules[1..], notify, rest);
      ConcatAssociates(RuleCommands(rules[0], notify), AllRuleCommands(rules[1..], notify), rest);
      RuleTreeWellFormed(rules[0], notify, more);
    }
  }

  lemma ConsWellFormed(c: Command, cs: seq<Command>)
    requires WellFormedCommand(c) && WellFormed(cs)
    ensures WellFormed([c] + cs)
  {
    assert ([c] + cs)[1..] == cs;
  }

  lemma RuleTreeWellFormed(rule: Rule, notify: string, more: seq<Command>)
    requires WellFormed(more)
    ensures WellFormed(RuleCommands(rule, notify) + more)
  {
    var test, actions := RuleTest(rule), RuleActions(rule, notify);
    if test.None? || actions.None? {
      assert RuleCommands(rule, notify) + more == more;
    } else {
      ActionsWellFormed(actions.value);
      ConsWellFormed(Conditional("if", test, actions.value), more);
    }
  }

  lemma {:induction false} ActionsWellFormed(body: seq<Command>)
    requires forall c | c in body :: c.Simple? && NonemptyLists(c.args)
    ensures WellFormed(body)
  {
    if body != [] {
      assert body[0] in body;
      forall c | c in body[1..]
        ensures c in body
      {
      }
      ActionsWellFormed(body[1..]);
    }
  }

  lemma TreeWellFormed(rules: seq<Rule>, options: Options)
    ensures WellFormed(Tree(rules, options))
  {
    var require_, spam := Simple("require", [ListArgument(REQUIRED)]), SpamBlock(options);
    var pipe := PipeCommand(options.notifyScript, "INBOX");
    var user := AllRuleCommands(SortByPosition(ActiveRules(rules)), options.notifyScript) + [pipe];
    ActionsWellFormed([pipe]);
    RuleTreesWellFormed(SortByPosition(ActiveRules(rules)), options.notifyScript, [pipe]);
    ActionsWellFormed(spam.body);
    ConsWellFormed(spam, user);
    ConsWellFormed(require_, [spam] + user);
    ConcatAssociates([require_], [spam], user);
    assert [require_] + [spam] == [require_, spam];
  }

  /** Every rule list and every option string reads back as exactly its own tree. */
  lemma ScriptReadsBack(rules: seq<Rule>, options: Options)
    ensures Parse(Script(rules, options)) == Some(Tree(rules, options))
  {
    ReadsScript(rules, options);
    TreeWellFormed(rules, options);
    CommandsReadBack(Tree(rules, options), []);
    assert CommandsTokens(Tree(rules, options)) + [] == CommandsTokens(Tree(rules, options));
  }
}
