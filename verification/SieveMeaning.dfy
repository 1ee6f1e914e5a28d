/**
 * What a generated script does to a message. An interpreter for the Sieve subset (RFC 5228 with
 * fileinto, imap4flags of RFC 5232, copy of RFC 3894, mailbox, and vnd.dovecot.pipe) is compared
 * with a direct reading of the rules that never looks at Sieve.
 */
module SieveMeaning {
  import opened Prelude
  import opened Wildcard
  import opened SieveCompiler
  import opened SieveSyntax
  import opened SieveRoundTrip

  datatype Header = Header(name: string, value: string)

  datatype Message = Message(headers: seq<Header>)

  datatype Effect =
    | Stored(folder: string, create: bool, flags: seq<string>)
    | Redirected(address: string)
    | Discarded
    | Piped(script: string, args: seq<string>)

  /** The interpreter's state; `keep` is the implicit keep of section 2.10.2 still standing. */
  datatype Run = Run(declared: set<string>, flags: seq<string>, keep: bool, effects: seq<Effect>, stopped: bool) {
    function With(effect: Effect, keeps: bool): Run {
      this.(effects := effects + [effect], keep := keep && keeps)
    }
  }

  // ----- Comparing texts: the default comparator folds ASCII letters (section 2.7.3) -----

  predicate Compares(match_: string, key: string, text: string) {
    if match_ == "contains" then Contains(Fold(text), Fold(key))
    else if match_ == "matches" then GLOB.Matches(Fold(key), Fold(text))
    else Fold(text) == Fold(key)
  }

  // ----- The interpreter -----

  function Tags(args: seq<Argument>): set<string> {
    set a | a in args && a.TagArgument? :: a.name
  }

  function Positional(args: seq<Argument>): seq<Argument>
  {
    if args == [] then []
    else (if args[0].TagArgument? then [] else [args[0]]) + Positional(args[1..])
  }

  function Strings(a: Argument): seq<string>
    requires !a.TagArgument?
  {
    if a.TextArgument? then [a.text] else a.items
  }

  predicate HeaderMatches(match_: string, names: seq<string>, keys: seq<string>, message: Message) {
    exists h, n, k | h in message.headers && n in names && k in keys ::
      Fold(h.name) == Fold(n) && Compares(match_, k, h.value)
  }

  /** A header test takes one match type, `:is` when none is given, and two string lists. */
  function EvalTest(test: Test, message: Message): Option<bool>
  {
    var tags, rest := Tags(test.args), Positional(test.args);
    if test.name != "header" || |rest| != 2 || rest[0].TagArgument? || rest[1].TagArgument? then None
    else
      var match_ :- if tags == {} then Some("is")
                    else if tags == {"is"} then Some("is")
                    else if tags == {"contains"} then Some("contains")
                    else if tags == {"matches"} then Some("matches")
                    else None;
      Some(HeaderMatches(match_, Strings(rest[0]), Strings(rest[1]), message))
  }

  /** The capabilities a command takes from outside the base language. */
  function Needs(name: string, tags: set<string>): set<string> {
    (if name == "fileinto" then {"fileinto"}
     else if name == "setflag" then {"imap4flags"}
     else if name == "pipe" then {"vnd.dovecot.pipe"}
     else {})
    + (if "copy" in tags then {"copy"} else {})
    + (if "create" in tags then {"mailbox"} else {})
  }

  /** A command that uses a capability no `require` has declared does not compile. */
  function ExecuteSimple(name: string, args: seq<Argument>, run: Run): Option<Run>
  {
    var tags, rest := Tags(args), Positional(args);
    var copy := "copy" in tags;
    if name == "require" && |args| == 1 && !args[0].TagArgument? then
      Some(run.(declared := run.declared + set s | s in Strings(args[0])))
    else if !(Needs(name, tags) <= run.declared) then None
    else if name == "stop" && args == [] then Some(run.(stopped := true))
    else if name == "discard" && args == [] then Some(run.With(Discarded, false))
    else if name == "setflag" && |args| == 1 && !args[0].TagArgument? then Some(run.(flags := Strings(args[0])))
    else if name == "fileinto" && tags <= {"copy", "create"} && |rest| == 1 && rest[0].TextArgument? then
      Some(run.With(Stored(rest[0].text, "create" in tags, run.flags), copy))
    else if name == "redirect" && tags <= {"copy"} && |rest| == 1 && rest[0].TextArgument? then
      Some(run.With(Redirected(rest[0].text), copy))
    else if name == "pipe" && tags <= {"copy"} && |rest| == 2 && rest[0].TextArgument? && !rest[1].TagArgument? then
      Some(run.With(Piped(rest[0].text, Strings(rest[1])), copy))
    else None
  }

  function Execute(c: Command, message: Message, run: Run): Option<Run>
    decreases c, 0
  {
    match c
    case Simple(name, args) => ExecuteSimple(name, args, run)
    case Conditional(name, test, body) =>
      if name != "if" || test.None? then None
      else
        var holds :- EvalTest(test.value, message);
        if holds then ExecuteAll(body, message, run) else Some(run)
  }

  function ExecuteAll(cs: seq<Command>, message: Message, run: Run): Option<Run>
    decreases cs, 1
  {
    if cs == [] || run.stopped then Some(run)
    else
      var next :- Execute(cs[0], message, run);
      ExecuteAll(cs[1..], message, next)
  }

  /** A run ends with the implicit keep unless something cancelled it. */
  function Finish(run: Run): seq<Effect> {
    run.effects + if run.keep then [Stored("INBOX", false, run.flags)] else []
  }

  const START := Run({}, [], true, [], false)

  const EXTENSIONS: set<string> := {"copy", "fileinto", "imap4flags", "mailbox", "vnd.dovecot.pipe"}

  const DECLARED := START.(declared := EXTENSIONS)

  function Interpret(script: seq<Command>, message: Message): Option<seq<Effect>>
  {
    var run :- ExecuteAll(script, message, START);
    Some(Finish(run))
  }

  // ----- The rules read directly -----

  /** What an operator says about two texts, once letters are folded by `f`. */
  predicate Means(f: char -> char, op: Operator, v: string, text: string) {
    var key, subject := MapChars(f, v), MapChars(f, text);
    match op
    case EqualsText => subject == key
    case StartsWithText => StartsWith(subject, key)
    case EndsWithText => EndsWith(subject, key)
    case _ => Contains(subject, key)
  }

  /** The two readings differ only in whether starts_with and ends_with values can act as patterns. */
  datatype Reading = AsWritten | AsCompiled

  predicate Accepts(reading: Reading, op: Operator, v: string, text: string) {
    if reading.AsCompiled? && op.StartsWithText? then GLOB.Matches(Fold(v + "*"), Fold(text))
    else if reading.AsCompiled? && op.EndsWithText? then GLOB.Matches(Fold("*" + v), Fold(text))
    else Means(AsciiFold, op, v, text)
  }

  predicate RuleMatches(reading: Reading, rule: Rule, header: string, message: Message) {
    exists h | h in message.headers ::
      Fold(h.name) == Fold(header) && Accepts(reading, rule.conditionOperator, rule.conditionValue, h.value)
  }

  predicate Compilable(rule: Rule) {
    && !rule.conditionField.OtherField?
    && !rule.conditionOperator.OtherOperator?
    && !rule.action.OtherAction?
    && (rule.action.MoveTo? ==> rule.targetFolder.Some?)
  }

  predicate Fires(reading: Reading, rule: Rule, message: Message) {
    Compilable(rule) && RuleMatches(reading, rule, HeaderFor(rule.conditionField).value, message)
  }

  predicate IsSpam(message: Message) {
    exists h | h in message.headers :: Fold(h.name) == Fold("X-Spam-Flag") && Contains(Fold(h.value), Fold("YES"))
  }

  /** The rules in order, the first that moves, forwards or discards ending the run. */
  function Apply(reading: Reading, rules: seq<Rule>, flags: seq<string>, notify: string, message: Message): seq<Effect>
  {
    if rules == [] then [Piped(notify, ["INBOX"]), Stored("INBOX", false, flags)]
    else if !Fires(reading, rules[0], message) then Apply(reading, rules[1..], flags, notify, message)
    else
      match rules[0].action
      case MoveTo =>
        var folder := rules[0].targetFolder.value;
        [Stored(folder, false, flags), Piped(notify, [folder])]
      case MarkRead => Apply(reading, rules[1..], ["\\Seen"], notify, message)
      case Forward => [Redirected(rules[0].conditionValue)]
      case Discard => [Discarded]
  }

  function SpamEffects(options: Options): seq<Effect> {
    [Stored(options.junkFolder, true, []), Piped(options.notifyScript, [options.junkFolder])]
  }

  function Deliver(reading: Reading, rules: seq<Rule>, options: Options, message: Message): seq<Effect> {
    if IsSpam(message) then SpamEffects(options)
    else Apply(reading, SortByPosition(ActiveRules(rules)), [], options.notifyScript, message)
  }

  // ----- What each emitted command does -----

  lemma PositionalStep(a: Argument, args: seq<Argument>)
    ensures Positional([a] + args) == (if a.TagArgument? then [] else [a]) + Positional(args)
  {
    assert ([a] + args)[1..] == args;
  }

  /** A tag followed by two plain arguments. */
  lemma TaggedArguments(tag: string, x: Argument, y: Argument)
    requires !x.TagArgument? && !y.TagArgument?
    ensures var args := [TagArgument(tag), x, y]; Tags(args) == {tag} && Positional(args) == [x, y]
  {
    var args := [TagArgument(tag), x, y];
    assert [y] == [y] + [] && [x, y] == [x] + [y] && args == [TagArgument(tag)] + [x, y];
    PositionalStep(y, []);
    PositionalStep(x, [y]);
    PositionalStep(TagArgument(tag), [x, y]);
    assert args[0] in args;
  }

  lemma OneTagOneText(tag: string, x: Argument)
    requires !x.TagArgument?
    ensures var args := [TagArgument(tag), x]; Tags(args) == {tag} && Positional(args) == [x]
  {
    var args := [TagArgument(tag), x];
    assert [x] == [x] + [] && args == [TagArgument(tag)] + [x];
    PositionalStep(x, []);
    PositionalStep(TagArgument(tag), [x]);
    assert args[0] in args;
  }

  lemma OneText(x: Argument)
    requires !x.TagArgument?
    ensures Tags([x]) == {} && Positional([x]) == [x]
  {
    assert [x] == [x] + [];
    PositionalStep(x, []);
  }

  predicate SomeHeader(match_: string, header: string, key: string, message: Message) {
    exists h | h in message.headers :: Fold(h.name) == Fold(header) && Compares(match_, key, h.value)
  }

  lemma HeaderTestMeans(match_: string, header: string, key: string, message: Message)
    requires match_ in {"is", "contains", "matches"}
    ensures EvalTest(HeaderTest(match_, header, key), message) == Some(SomeHeader(match_, header, key, message))
  {
    var names, keys := [header], [key];
    TaggedArguments(match_, TextArgument(header), TextArgument(key));
    if SomeHeader(match_, header, key, message) {
      var h :| h in message.headers && Fold(h.name) == Fold(header) && Compares(match_, key, h.value);
      assert names[0] in names && keys[0] in keys;
      assert HeaderMatches(match_, names, keys, message);
    }
  }

  lemma RuleTestMeans(rule: Rule, message: Message)
    requires RuleTest(rule).Some?
    ensures HeaderFor(rule.conditionField).Some?
    ensures EvalTest(RuleTest(rule).value, message)
         == Some(RuleMatches(AsCompiled, rule, HeaderFor(rule.conditionField).value, message))
  {
    var header, v := HeaderFor(rule.conditionField).value, rule.conditionValue;
    match rule.conditionOperator
    case ContainsText => HeaderTestMeans("contains", header, v, message);
    case EqualsText => HeaderTestMeans("is", header, v, message);
    case StartsWithText => HeaderTestMeans("matches", header, v + "*", message);
    case EndsWithText => HeaderTestMeans("matches", header, "*" + v, message);
  }

  /** A command that uses a capability the script has not declared does not run. */
  lemma NothingRunsUndeclared(args: seq<Argument>, run: Run)
    ensures "fileinto" !in run.declared ==> ExecuteSimple("fileinto", args, run).None?
    ensures "imap4flags" !in run.declared ==> ExecuteSimple("setflag", args, run).None?
    ensures "vnd.dovecot.pipe" !in run.declared ==> ExecuteSimple("pipe", args, run).None?
    ensures "copy" !in run.declared && TagArgument("copy") in args ==>
              ExecuteSimple("redirect", args, run).None? && ExecuteSimple("fileinto", args, run).None?
    ensures "mailbox" !in run.declared && TagArgument("create") in args ==> ExecuteSimple("fileinto", args, run).None?
  {
    assert TagArgument("copy") in args ==> "copy" in Tags(args);
    assert TagArgument("create") in args ==> "create" in Tags(args);
  }

  /** Nor does one with a tag it does not take. */
  lemma UnknownTagsAreRefused(tag: string, args: seq<Argument>, run: Run)
    requires TagArgument(tag) in args
    ensures tag !in {"copy", "create"} ==> ExecuteSimple("fileinto", args, run).None?
    ensures tag != "copy" ==> ExecuteSimple("redirect", args, run).None? && ExecuteSimple("pipe", args, run).None?
  {
    assert tag in Tags(args);
  }

  lemma PipeRuns(script: string, folder: string, message: Message, run: Run)
    requires run.declared == EXTENSIONS
    ensures Execute(PipeCommand(script, folder), message, run) == Some(run.With(Piped(script, [folder]), true))
  {
    TaggedArguments("copy", TextArgument(script), ListArgument([folder]));
  }

  lemma FileIntoRuns(folder: string, create: bool, message: Message, run: Run)
    requires run.declared == EXTENSIONS
    ensures Execute(Simple("fileinto", (if create then [TagArgument("create")] else []) + [TextArgument(folder)]), message, run)
         == Some(run.With(Stored(folder, create, run.flags), false))
  {
    if create {
      OneTagOneText("create", TextArgument(folder));
      assert [TagArgument("create")] + [TextArgument(folder)] == [TagArgument("create"), TextArgument(folder)];
    } else {
      OneText(TextArgument(folder));
      assert [] + [TextArgument(folder)] == [TextArgument(folder)];
    }
  }

  lemma RedirectRuns(address: string, message: Message, run: Run)
    ensures Execute(Simple("redirect", [TextArgument(address)]), message, run)
         == Some(run.With(Redirected(address), false))
  {
    OneText(TextArgument(address));
  }

  lemma StopRuns(message: Message, run: Run)
    ensures Execute(Simple("stop", []), message, run) == Some(run.(stopped := true))
  {
  }

  lemma ExecuteAllStep(c: Command, cs: seq<Command>, message: Message, run: Run)
    requires !run.stopped
    ensures ExecuteAll([c] + cs, message, run)
         == var next := Execute(c, message, run);
            if next.None? then None else ExecuteAll(cs, message, next.value)
  {
    assert ([c] + cs)[1..] == cs;
  }

  /** File, notify, stop: one copy stored, its own folder named, and the implicit keep gone. */
  lemma FilingRuns(folder: string, create: bool, notify: string, message: Message, run: Run)
    requires !run.stopped && run.declared == EXTENSIONS
    ensures ExecuteAll([Simple("fileinto", (if create then [TagArgument("create")] else []) + [TextArgument(folder)]),
                        PipeCommand(notify, folder), Simple("stop", [])], message, run)
         == Some(run.With(Stored(folder, create, run.flags), false).With(Piped(notify, [folder]), true).(stopped := true))
  {
    var file := Simple("fileinto", (if create then [TagArgument("create")] else []) + [TextArgument(folder)]);
    var pipe, stop := PipeCommand(notify, folder), Simple("stop", []);
    var filed := run.With(Stored(folder, create, run.flags), false);
    var told := filed.With(Piped(notify, [folder]), true);
    FileIntoRuns(folder, create, message, run);
    PipeRuns(notify, folder, message, filed);
    StopRuns(message, told);
    assert [file, pipe, stop] == [file] + [pipe, stop] && [pipe, stop] == [pipe] + [stop] && [stop] == [stop] + [];
    ExecuteAllStep(file, [pipe, stop], message, run);
    ExecuteAllStep(pipe, [stop], message, filed);
    ExecuteAllStep(stop, [], message, told);
  }

  lemma TwoStepsRun(c: Command, message: Message, run: Run, next: Run)
    requires !run.stopped && Execute(c, message, run) == Some(next) && !next.stopped
    ensures ExecuteAll([c, Simple("stop", [])], message, run) == Some(next.(stopped := true))
  {
    var stop := Simple("stop", []);
    StopRuns(message, next);
    assert [c, stop] == [c] + [stop] && [stop] == [stop] + [];
    ExecuteAllStep(c, [stop], message, run);
    ExecuteAllStep(stop, [], message, next);
  }

  /** The body of an emitted rule. */
  function AfterRule(rule: Rule, notify: string, run: Run): Run
    requires Compilable(rule)
  {
    match rule.action
    case MoveTo =>
      var folder := rule.targetFolder.value;
      run.With(Stored(folder, false, run.flags), false).With(Piped(notify, [folder]), true).(stopped := true)
    case MarkRead => run.(flags := ["\\Seen"])
    case Forward => run.With(Redirected(rule.conditionValue), false).(stopped := true)
    case Discard => run.With(Discarded, false).(stopped := true)
  }

  lemma RuleBodyRuns(rule: Rule, notify: string, message: Message, run: Run)
    requires Compilable(rule) && !run.stopped && run.declared == EXTENSIONS
    ensures RuleActions(rule, notify).Some?
    ensures ExecuteAll(RuleActions(rule, notify).value, message, run) == Some(AfterRule(rule, notify, run))
  {
    match rule.action
    case MoveTo =>
      var folder := rule.targetFolder.value;
      assert [] + [TextArgument(folder)] == [TextArgument(folder)];
      FilingRuns(folder, false, notify, message, run);
    case MarkRead =>
      var set_ := Simple("setflag", [TextArgument("\\Seen")]);
      assert [set_] == [set_] + [];
      ExecuteAllStep(set_, [], message, run);
    case Forward =>
      RedirectRuns(rule.conditionValue, message, run);
      TwoStepsRun(Simple("redirect", [TextArgument(rule.conditionValue)]), message, run, run.With(Redirected(rule.conditionValue), false));
    case Discard =>
      TwoStepsRun(Simple("discard", []), message, run, run.With(Discarded, false));
  }

  lemma CompilableIsEmitted(rule: Rule, notify: string)
    ensures Compilable(rule) <==> RuleTest(rule).Some? && RuleActions(rule, notify).Some?
  {
  }

  lemma ConditionalRuns(test: Test, body: seq<Command>, message: Message, run: Run)
    ensures Execute(Conditional("if", Some(test), body), message, run)
         == var holds := EvalTest(test, message);
            if holds.None? then None else if holds.value then ExecuteAll(body, message, run) else Some(run)
  {
  }

  /** The rules of a script, from any state, end as the direct reading says. */
  lemma {:induction false} RulesRun(rules: seq<Rule>, notify: string, message: Message, run: Run)
    requires !run.stopped && run.keep && run.effects == [] && run.declared == EXTENSIONS
    ensures var end := ExecuteAll(AllRuleCommands(rules, notify) + [PipeCommand(notify, "INBOX")], message, run);
            end.Some? && Finish(end.value) == Apply(AsCompiled, rules, run.flags, notify, message)
    decreases rules, 1
  {
    var pipe := PipeCommand(notify, "INBOX");
    if rules == [] {
      assert AllRuleCommands(rules, notify) + [pipe] == [pipe] + [];
      PipeRuns(notify, "INBOX", message, run);
      ExecuteAllStep(pipe, [], message, run);
    } else {
      var rule, rest := rules[0], AllRuleCommands(rules[1..], notify) + [pipe];
      CompilableIsEmitted(rule, notify);
      ConcatAssociates(RuleCommands(rule, notify), AllRuleCommands(rules[1..], notify), [pipe]);
      if !Compilable(rule) {
        assert [] + rest == rest;
        RulesRun(rules[1..], notify, message, run);
      } else {
        var test, body := RuleTest(rule).value, RuleActions(rule, notify).value;
        var c := Conditional("if", Some(test), body);
        RuleTestMeans(rule, message);
        ConditionalRuns(test, body, message, run);
        RuleBodyRuns(rule, notify, message, run);
        ExecuteAllStep(c, rest, message, run);
        RuleContinues(rule, rules, notify, message, run, rest);
      }
    }
  }

  lemma RuleContinues(rule: Rule, rules: seq<Rule>, notify: string, message: Message, run: Run, rest: seq<Command>)
    requires rules != [] && rule == rules[0] && Compilable(rule)
    requires !run.stopped && run.keep && run.effects == [] && run.declared == EXTENSIONS
    requires rest == AllRuleCommands(rules[1..], notify) + [PipeCommand(notify, "INBOX")]
    ensures var next := if Fires(AsCompiled, rule, message) then AfterRule(rule, notify, run) else run;
            var end := ExecuteAll(rest, message, next);
            end.Some? && Finish(end.value) == Apply(AsCompiled, rules, run.flags, notify, message)
    decreases rules, 0
  {
    if !Fires(AsCompiled, rule, message) {
      RulesRun(rules[1..], notify, message, run);
    } else if rule.action.MarkRead? {
      RulesRun(rules[1..], notify, message, run.(flags := ["\\Seen"]));
    }
  }

  lemma RequireRuns(message: Message)
    ensures Execute(Simple("require", [ListArgument(REQUIRED)]), message, START) == Some(DECLARED)
  {
    assert REQUIRED[0] in REQUIRED && REQUIRED[1] in REQUIRED && REQUIRED[2] in REQUIRED
        && REQUIRED[3] in REQUIRED && REQUIRED[4] in REQUIRED;
    assert (set s | s in REQUIRED) == EXTENSIONS;
    assert {} + EXTENSIONS == EXTENSIONS;
  }

  lemma SpamFilingRuns(options: Options, message: Message)
    ensures ExecuteAll(SpamBlock(options).body, message, DECLARED)
         == Some(Run(EXTENSIONS, [], false, SpamEffects(options), true))
  {
    var junk := options.junkFolder;
    assert [TagArgument("create")] + [TextArgument(junk)] == [TagArgument("create"), TextArgument(junk)];
    FilingRuns(junk, true, options.notifyScript, message, DECLARED);
    assert [] + [Stored(junk, true, [])] + [Piped(options.notifyScript, [junk])] == SpamEffects(options);
  }

  lemma SpamRuns(options: Options, message: Message)
    ensures Execute(SpamBlock(options), message, DECLARED)
         == Some(if IsSpam(message) then Run(EXTENSIONS, [], false, SpamEffects(options), true) else DECLARED)
  {
    var spam := SpamBlock(options);
    HeaderTestMeans("contains", "X-Spam-Flag", "YES", message);
    assert SomeHeader("contains", "X-Spam-Flag", "YES", message) == IsSpam(message);
    ConditionalRuns(spam.test.value, spam.body, message, DECLARED);
    SpamFilingRuns(options, message);
  }

  /** Interpreting the tree of a rule list is reading the rules directly. */
  lemma TreeMeans(rules: seq<Rule>, options: Options, message: Message)
    ensures Interpret(Tree(rules, options), message) == Some(Deliver(AsCompiled, rules, options, message))
  {
    var sorted := SortByPosition(ActiveRules(rules));
    var notify := options.notifyScript;
    var require_, spam := Simple("require", [ListArgument(REQUIRED)]), SpamBlock(options);
    var user := AllRuleCommands(sorted, notify) + [PipeCommand(notify, "INBOX")];
    assert Tree(rules, options) == [require_] + ([spam] + user);
    ExecuteAllStep(require_, [spam] + user, message, START);
    RequireRuns(message);
    ExecuteAllStep(spam, user, message, DECLARED);
    SpamRuns(options, message);
    if IsSpam(message) {
      assert SpamEffects(options) + [] == SpamEffects(options);
    } else {
      RulesRun(sorted, notify, message, DECLARED);
    }
  }

  /** The text that is written to disk, parsed and run, treats every message as the rules say. */
  lemma ScriptMeans(rules: seq<Rule>, options: Options, message: Message)
    ensures var script := Parse(Script(rules, options));
            script.Some? && Interpret(script.value, message) == Some(Deliver(AsCompiled, rules, options, message))
  {
    ScriptReadsBack(rules, options);
    TreeMeans(rules, options, message);
  }

  // ----- Which headers a script looks at -----

  /** The header a condition on the field is about. */
  predicate About(field: Field, h: Header) {
    match field
    case Sender => Fold(h.name) == "from"
    case Subject => Fold(h.name) == "subject"
    case Recipient => Fold(h.name) == "to"
    case OtherField(_) => false
  }

  /** A rule fires exactly when it can be compiled and a header its field is about is accepted. */
  lemma FiresOnItsHeader(reading: Reading, rule: Rule, message: Message)
    ensures Fires(reading, rule, message) <==>
              Compilable(rule) && exists h :: h in message.headers && About(rule.conditionField, h)
                                              && Accepts(reading, rule.conditionOperator, rule.conditionValue, h.value)
  {
    assert Fold("from") == "from" && Fold("subject") == "subject" && Fold("to") == "to";
    if Compilable(rule) && !Fires(reading, rule, message) {
      forall h | h in message.headers && About(rule.conditionField, h)
        ensures !Accepts(reading, rule.conditionOperator, rule.conditionValue, h.value)
      {
        assert Fold(h.name) == Fold(HeaderFor(rule.conditionField).value);
      }
    }
  }

  /** What a single rule does to mail that is no spam, on which it fires. */
  function Alone(rule: Rule, notify: string): seq<Effect>
    requires Compilable(rule)
  {
    match rule.action
    case MoveTo => [Stored(rule.targetFolder.value, false, []), Piped(notify, [rule.targetFolder.value])]
    case MarkRead => [Piped(notify, ["INBOX"]), Stored("INBOX", false, ["\\Seen"])]
    case Forward => [Redirected(rule.conditionValue)]
    case Discard => [Discarded]
  }

  lemma AppliedAlone(rule: Rule, notify: string, message: Message)
    requires Compilable(rule)
    ensures Apply(AsCompiled, [rule], [], notify, message)
         == if Fires(AsCompiled, rule, message) then Alone(rule, notify)
            else [Piped(notify, ["INBOX"]), Stored("INBOX", false, [])]
  {
    assert [rule][1..] == [];
    assert Apply(AsCompiled, [], [], notify, message) == [Piped(notify, ["INBOX"]), Stored("INBOX", false, [])];
    assert Apply(AsCompiled, [], ["\\Seen"], notify, message) == [Piped(notify, ["INBOX"]), Stored("INBOX", false, ["\\Seen"])];
  }

  /** The script of one active rule does what its action says to mail with an accepted header of its field, and keeps
      all other mail; no other header has a say. */
  lemma OneRuleActsOnItsHeader(rule: Rule, options: Options, message: Message)
    requires rule.active && Compilable(rule) && !IsSpam(message)
    ensures var script := Parse(Script([rule], options));
            script.Some? && Interpret(script.value, message)
              == Some(if exists h :: h in message.headers && About(rule.conditionField, h)
                                     && Accepts(AsCompiled, rule.conditionOperator, rule.conditionValue, h.value)
                      then Alone(rule, options.notifyScript)
                      else [Piped(options.notifyScript, ["INBOX"]), Stored("INBOX", false, [])])
  {
    ScriptMeans([rule], options, message);
    FiresOnItsHeader(AsCompiled, rule, message);
    OneRuleOrder(rule);
    AppliedAlone(rule, options.notifyScript, message);
  }

  /** The two messages have the same values in the headers the field is about. */
  ghost predicate LookAlike(field: Field, a: Message, b: Message) {
    && (forall h | h in a.headers && About(field, h) :: HasValue(field, b, h.value))
    && (forall h | h in b.headers && About(field, h) :: HasValue(field, a, h.value))
  }

  predicate HasValue(field: Field, message: Message, value: string) {
    exists h | h in message.headers :: About(field, h) && h.value == value
  }

  lemma FiresAlike(rule: Rule, a: Message, b: Message)
    requires LookAlike(rule.conditionField, a, b)
    ensures Fires(AsCompiled, rule, a) <==> Fires(AsCompiled, rule, b)
  {
    FiresOnItsHeader(AsCompiled, rule, a);
    FiresOnItsHeader(AsCompiled, rule, b);
    forall h | h in a.headers && About(rule.conditionField, h)
      ensures HasValue(rule.conditionField, b, h.value)
    {
    }
    forall h | h in b.headers && About(rule.conditionField, h)
      ensures HasValue(rule.conditionField, a, h.value)
    {
    }
  }

  lemma {:induction false} ApplyAlike(rules: seq<Rule>, flags: seq<string>, notify: string, a: Message, b: Message)
    requires forall r | r in rules :: LookAlike(r.conditionField, a, b)
    ensures Apply(AsCompiled, rules, flags, notify, a) == Apply(AsCompiled, rules, flags, notify, b)
  {
    if rules != [] {
      FiresAlike(rules[0], a, b);
      ApplyAlike(rules[1..], flags, notify, a, b);
      ApplyAlike(rules[1..], ["\\Seen"], notify, a, b);
    }
  }

  /** A script cannot tell apart two messages, spam or not alike, that look alike in the headers its active rules are about. */
  lemma OtherHeadersDoNotMatter(rules: seq<Rule>, options: Options, a: Message, b: Message)
    requires IsSpam(a) <==> IsSpam(b)
    requires forall r | r in rules && r.active :: LookAlike(r.conditionField, a, b)
    ensures var script := Parse(Script(rules, options));
            script.Some? && Interpret(script.value, a) == Interpret(script.value, b)
  {
    ScriptMeans(rules, options, a);
    ScriptMeans(rules, options, b);
    var sorted := SortByPosition(ActiveRules(rules));
    forall r | r in sorted
      ensures LookAlike(r.conditionField, a, b)
    {
      SortedAreActive(rules, r);
    }
    ApplyAlike(sorted, [], options.notifyScript, a, b);
  }

  // ----- One copy, one notification -----

  ghost function StoredFolders(effects: seq<Effect>): seq<string>
  {
    if effects == [] then []
    else (if effects[0].Stored? then [effects[0].folder] else []) + StoredFolders(effects[1..])
  }

  /** The folder lists handed to the notify script. */
  ghost function Notifications(effects: seq<Effect>): seq<(string, seq<string>)>
  {
    if effects == [] then []
    else (if effects[0].Piped? then [(effects[0].script, effects[0].args)] else []) + Notifications(effects[1..])
  }

  /** At most one copy stored, exactly one notification per copy naming its folder, and neither when mail leaves. */
  ghost predicate OneCopyReported(effects: seq<Effect>, notify: string) {
    var stored := StoredFolders(effects);
    && |stored| <= 1
    && Notifications(effects) == (if stored == [] then [] else [(notify, [stored[0]])])
    && (stored == [] <==> exists e :: e in effects && (e.Redirected? || e.Discarded?))
  }

  lemma OneEffect(a: Effect)
    ensures StoredFolders([a]) == if a.Stored? then [a.folder] else []
    ensures Notifications([a]) == if a.Piped? then [(a.script, a.args)] else []
  {
    assert [a][1..] == [];
  }

  lemma CopyReported(a: Effect, b: Effect, folder: string, notify: string)
    requires (a.Stored? && a.folder == folder && b == Piped(notify, [folder]))
          || (b.Stored? && b.folder == folder && a == Piped(notify, [folder]))
    ensures OneCopyReported([a, b], notify)
  {
    assert [a, b][1..] == [b];
    OneEffect(b);
    assert StoredFolders([a, b]) == [folder];
    assert Notifications([a, b]) == [(notify, [folder])];
  }

  lemma NothingKept(a: Effect, notify: string)
    requires a.Redirected? || a.Discarded?
    ensures OneCopyReported([a], notify)
  {
    OneEffect(a);
    assert a in [a];
  }

  lemma {:induction false} ApplyReportsOneCopy(reading: Reading, rules: seq<Rule>, flags: seq<string>, notify: string, message: Message)
    ensures OneCopyReported(Apply(reading, rules, flags, notify, message), notify)
  {
    if rules == [] {
      CopyReported(Piped(notify, ["INBOX"]), Stored("INBOX", false, flags), "INBOX", notify);
    } else if !Fires(reading, rules[0], message) {
      ApplyReportsOneCopy(reading, rules[1..], flags, notify, message);
    } else {
      match rules[0].action
      case MoveTo =>
        var folder := rules[0].targetFolder.value;
        CopyReported(Stored(folder, false, flags), Piped(notify, [folder]), folder, notify);
      case MarkRead =>
        ApplyReportsOneCopy(reading, rules[1..], ["\\Seen"], notify, message);
      case Forward =>
        NothingKept(Redirected(rules[0].conditionValue), notify);
      case Discard =>
        NothingKept(Discarded, notify);
    }
  }

  /** Every run of a generated script, as the interpreter executes it. */
  lemma ScriptReportsOneCopy(rules: seq<Rule>, options: Options, message: Message)
    ensures var script := Parse(Script(rules, options));
            && script.Some?
            && Interpret(script.value, message).Some?
            && OneCopyReported(Interpret(script.value, message).value, options.notifyScript)
  {
    ScriptMeans(rules, options, message);
    if IsSpam(message) {
      CopyReported(SpamEffects(options)[0], SpamEffects(options)[1], options.junkFolder, options.notifyScript);
    } else {
      ApplyReportsOneCopy(AsCompiled, SortByPosition(ActiveRules(rules)), [], options.notifyScript, message);
    }
  }
}
