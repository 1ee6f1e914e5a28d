/** The rule-to-Sieve compiler of src/rules/sieve.ts. */
module SieveCompiler {
  import opened Prelude

  // The three columns are text; a value outside the known ones falls to the default branch.
  datatype Field = Sender | Subject | Recipient | OtherField(name: string)

  datatype Operator = ContainsText | EqualsText | StartsWithText | EndsWithText | OtherOperator(name: string)

  datatype Action = MoveTo | MarkRead | Forward | Discard | OtherAction(name: string)

  datatype Rule = Rule(
    id: Id,
    mailboxId: Id,
    position: int,
    active: bool,
    conditionField: Field,
    conditionOperator: Operator,
    conditionValue: string,
    action: Action,
    targetFolder: Option<string>)

  datatype Options = Options(notifyScript: string, junkFolder: string)

  // ----- Strings -----

  /** String.replace of every occurrence of one character. */
  function ReplaceAll(s: string, c: char, image: string): string
  {
    if s == "" then "" else (if s[0] == c then image else [s[0]]) + ReplaceAll(s[1..], c, image)
  }

  function Quote(value: string): string
  {
    "\"" + ReplaceAll(ReplaceAll(value, '\\', "\\\\"), '"', "\\\"") + "\""
  }

  function QuoteMatch(value: string, prefix: string, suffix: string): string
  {
    "\"" + prefix + Escape(value, {'\\', '"', '*', '?'}) + suffix + "\""
  }

  function Join(lines: seq<string>, separator: string): string
  {
    if |lines| == 0 then ""
    else if |lines| == 1 then lines[0]
    else lines[0] + separator + Join(lines[1..], separator)
  }

  // ----- One rule -----

  function HeaderFor(field: Field): Option<string>
  {
    match field
    case Sender => Some("from")
    case Subject => Some("subject")
    case Recipient => Some("to")
    case OtherField(_) => None
  }

  function Condition(rule: Rule): Option<string>
  {
    var header := HeaderFor(rule.conditionField);
    if header.None? then None
    else
      var name := Quote(header.value);
      match rule.conditionOperator
      case ContainsText => Some("header :contains " + name + " " + Quote(rule.conditionValue))
      case EqualsText => Some("header :is " + name + " " + Quote(rule.conditionValue))
      case StartsWithText => Some("header :matches " + name + " " + QuoteMatch(rule.conditionValue, "", "*"))
      case EndsWithText => Some("header :matches " + name + " " + QuoteMatch(rule.conditionValue, "*", ""))
      case OtherOperator(_) => None
  }

  function NotifyCall(script: string, folder: string): string
  {
    "pipe :copy " + Quote(script) + " [" + Quote(folder) + "]"
  }

  function Body(rule: Rule, notify: string): Option<seq<string>>
  {
    match rule.action
    case MoveTo =>
      if rule.targetFolder.None? then None
      else Some(["fileinto " + Quote(rule.targetFolder.value) + ";",
                 NotifyCall(notify, rule.targetFolder.value) + ";",
                 "stop;"])
    case MarkRead => Some(["setflag \"\\\\Seen\";"])
    case Forward => Some(["redirect " + Quote(rule.conditionValue) + ";", "stop;"])
    case Discard => Some(["discard;", "stop;"])
    case OtherAction(_) => None
  }

  // ----- The whole script -----

  function ActiveRules(rules: seq<Rule>): seq<Rule>
  {
    if rules == [] then []
    else (if rules[0].active then [rules[0]] else []) + ActiveRules(rules[1..])
  }

  /** Array.sort by position, which is stable: equal positions keep their order. */
  function SortByPosition(rules: seq<Rule>): seq<Rule>
  {
    if rules == [] then [] else InsertByPosition(rules[0], SortByPosition(rules[1..]))
  }

  function InsertByPosition(rule: Rule, sorted: seq<Rule>): seq<Rule>
  {
    if sorted == [] || rule.position <= sorted[0].position then [rule] + sorted
    else [sorted[0]] + InsertByPosition(rule, sorted[1..])
  }

  const REQUIRE_LINE :=
    "require [\"copy\", \"fileinto\", " + ("\"imap4flags\", \"mailbox\", " + "\"vnd.dovecot.pipe\"];")

  const COMMENT_LINE := "# Generated by stampyx-api. " + "Edits here are overwritten."

  const SPAM_TEST := "header :contains \"X-Spam-Flag\" \"YES\""

  function Preamble(options: Options): seq<string>
  {
    [ REQUIRE_LINE,
      "",
      COMMENT_LINE,
      "",
      "if " + SPAM_TEST + " {",
      "    " + ("fileinto :create " + Quote(options.junkFolder) + ";"),
      "    " + (NotifyCall(options.notifyScript, options.junkFolder) + ";"),
      "    " + "stop;",
      "}",
      ""]
  }

  function Indented(lines: seq<string>): seq<string>
  {
    if lines == [] then [] else ["    " + lines[0]] + Indented(lines[1..])
  }

  function RuleLines(rule: Rule, notify: string): seq<string>
  {
    var test, action := Condition(rule), Body(rule, notify);
    if test.None? || action.None? then []
    else Block(test.value, action.value)
  }

  function Block(test: string, action: seq<string>): seq<string>
  {
    ["if " + test + " {"] + Indented(action) + ["}", ""]
  }

  function Closing(options: Options): seq<string>
  {
    [NotifyCall(options.notifyScript, "INBOX") + ";", ""]
  }

  function AllRuleLines(rules: seq<Rule>, notify: string): seq<string>
  {
    if rules == [] then [] else RuleLines(rules[0], notify) + AllRuleLines(rules[1..], notify)
  }

  function Script(rules: seq<Rule>, options: Options): string
  {
    Join(Preamble(options)
         + AllRuleLines(SortByPosition(ActiveRules(rules)), options.notifyScript)
         + Closing(options), "\n")
  }

  /** What one turn of the loop adds. */
  lemma LinesAppend(head: seq<string>, rules: seq<Rule>, i: nat, notify: string)
    requires i < |rules|
    ensures head + AllRuleLines(rules[..i + 1], notify)
         == head + AllRuleLines(rules[..i], notify) + RuleLines(rules[i], notify)
  {
    assert rules[..i + 1] == rules[..i] + [rules[i]];
    AllRuleLinesAppend(rules[..i], rules[i], notify);
  }

  method GenerateSieve(rules: seq<Rule>, options: Options) returns (script: string)
    ensures script == Script(rules, options)
  {
    var lines := PushRules(Preamble(options), SortByPosition(ActiveRules(rules)), options.notifyScript);
    lines := lines + Closing(options);
    script := Join(lines, "\n");
  }

  /** The loop over the sorted rules. */
  method PushRules(head: seq<string>, sorted: seq<Rule>, notify: string) returns (lines: seq<string>)
    ensures lines == head + AllRuleLines(sorted, notify)
  {
    lines := head;
    for i := 0 to |sorted|
      invariant lines == head + AllRuleLines(sorted[..i], notify)
    {
      LinesAppend(head, sorted, i, notify);
      lines := PushRule(lines, sorted[i], notify);
    }
    assert sorted[..|sorted|] == sorted;
  }

  /** One turn of it, which skips a rule without test or action. */
  method PushRule(before: seq<string>, rule: Rule, notify: string) returns (lines: seq<string>)
    ensures lines == before + RuleLines(rule, notify)
  {
    var test := Condition(rule);
    var action := Body(rule, notify);
    if test.None? || action.None? {
      return before;
    }
    lines := before + Block(test.value, action.value);
  }

  lemma {:induction false} AllRuleLinesAppend(rules: seq<Rule>, last: Rule, notify: string)
    ensures AllRuleLines(rules + [last], notify) == AllRuleLines(rules, notify) + RuleLines(last, notify)
  {
    if rules != [] {
      assert (rules + [last])[1..] == rules[1..] + [last];
      AllRuleLinesAppend(rules[1..], last, notify);
    } else {
      assert (rules + [last])[1..] == [];
    }
  }

  // ----- Which order the rules come out in -----

  ghost predicate Ordered(rules: seq<Rule>) {
    forall i, j | 0 <= i < j < |rules| :: rules[i].position <= rules[j].position
  }

  /** The rules at one position, in the order given. */
  ghost function At(rules: seq<Rule>, position: int): seq<Rule>
  {
    if rules == [] then []
    else (if rules[0].position == position then [rules[0]] else []) + At(rules[1..], position)
  }

  lemma {:induction false} InsertAt(rule: Rule, sorted: seq<Rule>, p: int)
    ensures At(InsertByPosition(rule, sorted), p) == (if rule.position == p then [rule] else []) + At(sorted, p)
  {
    var inserted := InsertByPosition(rule, sorted);
    if sorted == [] || rule.position <= sorted[0].position {
      assert inserted[1..] == sorted;
    } else {
      InsertAt(rule, sorted[1..], p);
      assert inserted[1..] == InsertByPosition(rule, sorted[1..]);
      if sorted[0].position != p {
        assert At(inserted, p) == At(inserted[1..], p);
        assert At(sorted, p) == At(sorted[1..], p);
      } else {
        assert At(inserted, p) == [sorted[0]] + At(sorted[1..], p) == At(sorted, p);
      }
    }
  }

  lemma {:induction false} InsertOrdered(rule: Rule, sorted: seq<Rule>)
    requires Ordered(sorted)
    ensures Ordered(InsertByPosition(rule, sorted))
    ensures forall r | r in InsertByPosition(rule, sorted) :: r == rule || r in sorted
  {
    if !(sorted == [] || rule.position <= sorted[0].position) {
      InsertOrdered(rule, sorted[1..]);
      var rest := InsertByPosition(rule, sorted[1..]);
      forall j | 0 <= j < |rest|
        ensures sorted[0].position <= rest[j].position
      {
        assert rest[j] in rest;
        if rest[j] != rule {
          var i :| 0 <= i < |sorted[1..]| && sorted[1..][i] == rest[j];
          assert sorted[i + 1] == rest[j];
        }
      }
    }
  }

  /** The order is a stable sort: ascending, and each position keeps exactly its rules in their given order. */
  lemma {:induction false} SortIsStable(rules: seq<Rule>)
    ensures Ordered(SortByPosition(rules))
    ensures forall p :: At(SortByPosition(rules), p) == At(rules, p)
  {
    if rules != [] {
      SortIsStable(rules[1..]);
      InsertOrdered(rules[0], SortByPosition(rules[1..]));
      forall p
        ensures At(SortByPosition(rules), p) == At(rules, p)
      {
        InsertAt(rules[0], SortByPosition(rules[1..]), p);
      }
    }
  }

  /** Stability and order determine the result, so it does not matter which stable sort is used. */
  lemma {:induction false} StableSortIsUnique(a: seq<Rule>, b: seq<Rule>)
    requires Ordered(a) && Ordered(b)
    requires forall p :: At(a, p) == At(b, p)
    ensures a == b
    decreases |a|
  {
    if a == [] {
      StableSortOfNothing(b);
    } else if b == [] {
      StableSortOfNothing(a);
    } else {
      AtMember(a, b[0]);
      AtMember(b, a[0]);
      assert a[0] in At(a, a[0].position) && b[0] in At(b, b[0].position);
      assert a[0].position == b[0].position;
      assert a[0] == At(a, a[0].position)[0] == b[0];
      forall p
        ensures At(a[1..], p) == At(b[1..], p)
      {
        assert At(a, p) == At(b, p);
        var head := if a[0].position == p then [a[0]] else [];
        assert At(a[1..], p) == At(a, p)[|head|..];
        assert At(b[1..], p) == At(b, p)[|head|..];
      }
      StableSortIsUnique(a[1..], b[1..]);
    }
  }

  lemma StableSortOfNothing(a: seq<Rule>)
    requires forall p :: At(a, p) == []
    ensures a == []
  {
    if a != [] {
      AtMember(a, a[0]);
    }
  }

  lemma {:induction false} AtMember(rules: seq<Rule>, r: Rule)
    ensures r in At(rules, r.position) <==> r in rules
  {
    if rules != [] {
      AtMember(rules[1..], r);
      assert rules == [rules[0]] + rules[1..];
    }
  }

  ghost predicate DistinctPositions(rules: seq<Rule>) {
    forall i, j | 0 <= i < j < |rules| :: rules[i].position != rules[j].position
  }

  lemma {:induction false} ActiveMember(rules: seq<Rule>, r: Rule)
    ensures r in ActiveRules(rules) <==> r in rules && r.active
  {
    if rules != [] {
      ActiveMember(rules[1..], r);
      assert rules == [rules[0]] + rules[1..];
    }
  }

  /** The rules a script is made of are the active ones. */
  lemma SortedAreActive(rules: seq<Rule>, r: Rule)
    ensures r in SortByPosition(ActiveRules(rules)) <==> r in rules && r.active
  {
    var sorted := SortByPosition(ActiveRules(rules));
    SortIsStable(ActiveRules(rules));
    AtMember(sorted, r);
    AtMember(ActiveRules(rules), r);
    ActiveMember(rules, r);
  }

  lemma OneRuleOrder(rule: Rule)
    requires rule.active
    ensures SortByPosition(ActiveRules([rule])) == [rule]
  {
    assert [rule][1..] == [];
  }

  /** With distinct positions, each holds at most one rule. */
  lemma {:induction false} AtDistinct(rules: seq<Rule>, p: int)
    requires DistinctPositions(rules)
    ensures |At(rules, p)| <= 1
    ensures forall r | r in At(rules, p) :: r in rules && r.position == p
  {
    if rules != [] {
      AtDistinct(rules[1..], p);
      assert rules == [rules[0]] + rules[1..];
      forall r | r in At(rules[1..], p)
        ensures rules[0].position != p
      {
        var i :| 0 <= i < |rules[1..]| && rules[1..][i] == r;
        assert rules[i + 1] == r;
      }
      assert At(rules[1..], p) != [] ==> At(rules[1..], p)[0] in At(rules[1..], p);
    }
  }

  lemma {:induction false} ActiveDistinct(rules: seq<Rule>)
    requires DistinctPositions(rules)
    ensures DistinctPositions(ActiveRules(rules))
  {
    if rules != [] {
      var rest := ActiveRules(rules[1..]);
      ActiveDistinct(rules[1..]);
      forall j | 0 <= j < |rest|
        ensures rest[j].position != rules[0].position
      {
        ActiveMember(rules[1..], rest[j]);
        var i :| 0 <= i < |rules[1..]| && rules[1..][i] == rest[j];
        assert rules[i + 1] == rest[j];
      }
    }
  }

  lemma AtIgnoresInputOrder(a: seq<Rule>, b: seq<Rule>, p: int)
    requires DistinctPositions(a) && DistinctPositions(b)
    requires forall r :: r in a <==> r in b
    ensures At(ActiveRules(a), p) == At(ActiveRules(b), p)
  {
    var x, y := At(ActiveRules(a), p), At(ActiveRules(b), p);
    ActiveDistinct(a);
    ActiveDistinct(b);
    AtDistinct(ActiveRules(a), p);
    AtDistinct(ActiveRules(b), p);
    forall r
      ensures r in x <==> r in y
    {
      ActiveMember(a, r);
      ActiveMember(b, r);
      AtMember(ActiveRules(a), r);
      AtMember(ActiveRules(b), r);
    }
    SameShortSequence(x, y);
  }

  /** The order in which the store hands over the rules does not show in the script. */
  lemma ScriptIgnoresInputOrder(a: seq<Rule>, b: seq<Rule>, options: Options)
    requires DistinctPositions(a) && DistinctPositions(b)
    requires forall r :: r in a <==> r in b
    ensures Script(a, options) == Script(b, options)
  {
    SortIsStable(ActiveRules(a));
    SortIsStable(ActiveRules(b));
    forall p
      ensures At(ActiveRules(a), p) == At(ActiveRules(b), p)
    {
      AtIgnoresInputOrder(a, b, p);
    }
    StableSortIsUnique(SortByPosition(ActiveRules(a)), SortByPosition(ActiveRules(b)));
  }
}
