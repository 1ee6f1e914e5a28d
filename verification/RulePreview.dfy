/**
 * The preview of src/rules/rule.service.ts compiles the same condition to an SQL pattern. Both
 * compilations are measured against what the operator says about a text: the SQL pattern always
 * means it, the Sieve test exactly when the value holds no character `:matches` reads specially.
 */
module RulePreview {
  import opened Prelude
  import opened Wildcard
  import opened SieveCompiler
  import opened SieveMeaning
  import opened SieveRoundTrip
  import opened SieveSyntax

  function PatternFor(operator: Operator, value: string): string {
    var literal := Escape(value, {'%', '_', '\\'});
    match operator
    case EqualsText => literal
    case StartsWithText => literal + "%"
    case EndsWithText => "%" + literal
    case _ => "%" + literal + "%"
  }

  /** ILIKE: LIKE after folding both sides; PostgreSQL's folding is any `f` that keeps `%`, `_` and backslash apart. */
  predicate Ilike(f: char -> char, pattern: string, text: string) {
    LIKE.Matches(MapChars(f, pattern), MapChars(f, text))
  }

  /** The pattern accepts exactly the texts the operator names, for every value and every folding. */
  lemma PreviewIsExact(f: char -> char, op: Operator, v: string, text: string)
    requires Respects(LIKE, f)
    ensures Ilike(f, PatternFor(op, v), text) <==> Means(f, op, v, text)
  {
    var special := {'%', '_', '\\'};
    var literal, key := Escape(v, special), MapChars(f, v);
    FoldEscape(LIKE, f, v);
    EscapedPatterns(LIKE, key, MapChars(f, text));
    assert LIKE.Special('%');
    FoldPercent(f);
    MapCharsConcat(f, literal, "%");
    MapCharsConcat(f, "%", literal);
    ConcatAssociates("%", literal, "%");
    MapCharsConcat(f, "%", literal + "%");
  }

  lemma FoldPercent(f: char -> char)
    requires Respects(LIKE, f)
    ensures MapChars(f, "%") == "%"
  {
    assert LIKE.Special('%');
    assert MapChars(f, "%")[0] == f('%');
  }

  // ----- The Sieve side -----

  /** The values on which a compiled test is the written one; a caller can check it before saving a rule. */
  predicate ExactValue(op: Operator, v: string) {
    match op
    case StartsWithText => GLOB.Plain(v)
    case EndsWithText => GLOB.PlainBeforeEnd(v)
    case _ => true
  }

  lemma FoldKeepsSpecials(v: string)
    ensures GLOB.Plain(Fold(v)) <==> GLOB.Plain(v)
    ensures GLOB.PlainBeforeEnd(Fold(v)) <==> GLOB.PlainBeforeEnd(v)
  {
    forall u: string
      ensures GLOB.Plain(Fold(u)) <==> GLOB.Plain(u)
    {
      FoldKeepsPlain(u);
    }
    if v != "" {
      assert Fold(v)[..|v| - 1] == Fold(v[..|v| - 1]);
    }
  }

  lemma FoldKeepsPlain(u: string)
    ensures GLOB.Plain(Fold(u)) <==> GLOB.Plain(u)
  {
    forall i | 0 <= i < |u|
      ensures Fold(u)[i] in Fold(u) && u[i] in u
      ensures GLOB.Special(Fold(u)[i]) <==> GLOB.Special(u[i])
    {
    }
    if c :| c in u && GLOB.Special(c) {
      var i :| 0 <= i < |u| && u[i] == c;
      assert GLOB.Special(Fold(u)[i]);
    }
  }

  /** The key of a compiled starts_with or ends_with test, folded. */
  lemma FoldedPatterns(v: string)
    ensures Fold(v + "*") == Fold(v) + "*"
    ensures Fold("*" + v) == "*" + Fold(v)
  {
    MapCharsConcat(AsciiFold, v, "*");
    MapCharsConcat(AsciiFold, "*", v);
    assert Fold("*") == "*";
  }

  /** A text on which a value with special characters is accepted though the operator says no, under any folding. */
  lemma InexactWitness(f: char -> char, op: Operator, v: string) returns (text: string)
    requires Respects(GLOB, f) && !ExactValue(op, v)
    ensures Accepts(AsCompiled, op, v, text) && !Means(f, op, v, text)
  {
    if op.StartsWithText? {
      text := Least(GLOB, v + "*");
      LeastMatches(GLOB, v + "*");
      FoldMatches(GLOB, AsciiFold, v + "*", text);
      LeastMissesPrefix(GLOB, f, v);
    } else {
      text := Least(GLOB, v);
      LeastMatches(GLOB, v);
      ManyHead(GLOB, v, text);
      assert text[0..] == text;
      FoldMatches(GLOB, AsciiFold, "*" + v, text);
      if EndsWith(MapChars(f, text), MapChars(f, v)) {
        assert MapChars(f, text) == MapChars(f, v);
        LeastIsSelf(GLOB, f, v);
      }
    }
  }

  lemma ExactAccepts(op: Operator, v: string, text: string)
    requires ExactValue(op, v)
    ensures Accepts(AsCompiled, op, v, text) <==> Accepts(AsWritten, op, v, text)
  {
    FoldKeepsSpecials(v);
    FoldedPatterns(v);
    if op.StartsWithText? {
      PrefixPatternExactness(GLOB, Fold(v));
    } else if op.EndsWithText? {
      SuffixPatternExactness(GLOB, Fold(v));
    }
  }

  /** A compiled test accepts the same texts as the operator it came from just when the value is exact. */
  lemma CompiledTestExactness(op: Operator, v: string)
    ensures ExactValue(op, v) <==> forall text :: Accepts(AsCompiled, op, v, text) <==> Accepts(AsWritten, op, v, text)
  {
    if ExactValue(op, v) {
      forall text: string
        ensures Accepts(AsCompiled, op, v, text) <==> Accepts(AsWritten, op, v, text)
      {
        ExactAccepts(op, v, text);
      }
    } else {
      var text := InexactWitness(AsciiFold, op, v);
    }
  }

  /** A value without a backslash is never missed: the compiled test can only accept too much. */
  lemma CompiledTestNeverMisses(op: Operator, v: string, text: string)
    requires '\\' !in v
    requires Accepts(AsWritten, op, v, text)
    ensures Accepts(AsCompiled, op, v, text)
  {
    FoldedPatterns(v);
    var key, subject := Fold(v), Fold(text);
    FoldAddsNoBackslash(v);
    if op.StartsWithText? {
      PrefixNeverMisses(key, subject);
    } else if op.EndsWithText? {
      SuffixNeverMisses(key, subject);
    }
  }

  lemma FoldAddsNoBackslash(v: string)
    requires '\\' !in v
    ensures '\\' !in Fold(v)
  {
    forall i | 0 <= i < |v|
      ensures Fold(v)[i] != '\\'
    {
      assert v[i] in v;
    }
  }

  lemma PrefixNeverMisses(key: string, subject: string)
    requires '\\' !in key && StartsWith(subject, key)
    ensures GLOB.Matches(key + "*", subject)
  {
    ManyMatchesAll(GLOB, subject[|key|..]);
    SelfMatches(GLOB, key, "*", subject[|key|..]);
    assert subject == key + subject[|key|..];
  }

  lemma SuffixNeverMisses(key: string, subject: string)
    requires '\\' !in key && EndsWith(subject, key)
    ensures GLOB.Matches("*" + key, subject)
  {
    SelfMatches(GLOB, key, "", "");
    assert key + "" == key;
    ManyHead(GLOB, key, subject);
    assert subject[|subject| - |key|..] == key;
  }

  /** Without escapes, every pattern matches its own text. */
  lemma {:induction false} SelfMatches(w: Wildcards, v: string, p: string, s: string)
    requires w.Valid() && '\\' !in v && w.Matches(p, s)
    ensures w.Matches(v + p, v + s)
  {
    if v == "" {
      assert v + p == p && v + s == s;
    } else {
      assert v[0] in v;
      SelfMatches(w, v[1..], p, s);
      assert (v + p)[1..] == v[1..] + p && (v + s)[1..] == v[1..] + s;
      if v[0] == w.many {
        assert w.Matches(v + p, (v + s)[1..]);
      }
    }
  }

  // ----- Preview against script -----

  /** The database takes the same characters for a letter of the value as the script does. */
  ghost predicate SameLetters(f: char -> char, v: string) {
    forall c, d | c in v :: f(d) == f(c) <==> AsciiFold(d) == AsciiFold(c)
  }

  predicate SameText(f: char -> char, a: string, b: string) {
    MapChars(f, a) == MapChars(f, b)
  }

  lemma SameLettersSameText(f: char -> char, v: string, text: string)
    requires SameLetters(f, v)
    ensures SameText(f, text, v) <==> SameText(AsciiFold, text, v)
  {
    if |text| == |v| {
      forall i | 0 <= i < |v|
        ensures MapChars(f, text)[i] == MapChars(f, v)[i] <==> Fold(text)[i] == Fold(v)[i]
      {
        assert v[i] in v;
      }
    }
  }

  /** The text has the value at this place. */
  predicate HasAt(f: char -> char, v: string, text: string, k: nat) {
    k + |v| <= |text| && SameText(f, text[k..k + |v|], v)
  }

  lemma HasAtIsPrefix(f: char -> char, v: string, text: string, k: nat)
    requires k <= |text|
    ensures HasAt(f, v, text, k) <==> MapChars(f, v) <= MapChars(f, text)[k..]
  {
    if k + |v| <= |text| {
      assert MapChars(f, text[k..k + |v|]) == MapChars(f, text)[k..][..|v|];
    }
  }

  /** Every operator compares the value with some piece of the text. */
  lemma MeansPiece(f: char -> char, op: Operator, v: string, text: string)
    ensures Means(f, op, v, text) <==>
              match op
              case EqualsText => SameText(f, text, v)
              case StartsWithText => HasAt(f, v, text, 0)
              case EndsWithText => |v| <= |text| && HasAt(f, v, text, |text| - |v|)
              case _ => exists k: nat :: HasAt(f, v, text, k)
  {
    var key, subject := MapChars(f, v), MapChars(f, text);
    assert subject[0..] == subject;
    forall k: nat | k <= |text|
      ensures HasAt(f, v, text, k) <==> key <= subject[k..]
    {
      HasAtIsPrefix(f, v, text, k);
    }
  }

  lemma SameLettersAgree(f: char -> char, op: Operator, v: string, text: string)
    requires SameLetters(f, v)
    ensures Means(f, op, v, text) <==> Means(AsciiFold, op, v, text)
  {
    SameLettersSameText(f, v, text);
    forall k: nat
      ensures HasAt(f, v, text, k) <==> HasAt(AsciiFold, v, text, k)
    {
      if k + |v| <= |text| {
        SameLettersSameText(f, v, text[k..k + |v|]);
      }
    }
    MeansPiece(f, op, v, text);
    MeansPiece(AsciiFold, op, v, text);
  }

  /** On a text as long as the value every operator says that the two are the same. */
  lemma MeansOnSameLength(f: char -> char, op: Operator, v: string, text: string)
    requires |text| == |v|
    ensures Means(f, op, v, text) <==> SameText(f, text, v)
  {
    MeansPiece(f, op, v, text);
    assert text[0..0 + |v|] == text;
    assert HasAt(f, v, text, 0) <==> SameText(f, text, v);
  }

  /** Otherwise the value with one letter exchanged tells the two foldings apart. */
  lemma LettersWitness(f: char -> char, op: Operator, v: string) returns (text: string)
    requires !SameLetters(f, v)
    ensures Means(f, op, v, text) <==> !Means(AsciiFold, op, v, text)
  {
    var c, d :| c in v && !(f(d) == f(c) <==> AsciiFold(d) == AsciiFold(c));
    var i :| 0 <= i < |v| && v[i] == c;
    text := v[i := d];
    OneLetterExchanged(f, v, i, d);
    OneLetterExchanged(AsciiFold, v, i, d);
    MeansOnSameLength(f, op, v, text);
    MeansOnSameLength(AsciiFold, op, v, text);
  }

  lemma OneLetterExchanged(f: char -> char, v: string, i: nat, d: char)
    requires i < |v|
    ensures SameText(f, v[i := d], v) <==> f(d) == f(v[i])
  {
    assert MapChars(f, v[i := d])[i] == f(d) && MapChars(f, v)[i] == f(v[i]);
  }

  /** Preview and script agree on a text. */
  predicate Agree(f: char -> char, op: Operator, v: string, text: string) {
    Ilike(f, PatternFor(op, v), text) <==> Accepts(AsCompiled, op, v, text)
  }

  lemma AgreeWhenExact(f: char -> char, op: Operator, v: string, text: string)
    requires Respects(LIKE, f) && ExactValue(op, v) && SameLetters(f, v)
    ensures Agree(f, op, v, text)
  {
    PreviewIsExact(f, op, v, text);
    ExactAccepts(op, v, text);
    SameLettersAgree(f, op, v, text);
  }

  lemma DisagreeWitness(f: char -> char, op: Operator, v: string) returns (text: string)
    requires Respects(LIKE, f) && Respects(GLOB, f) && !(ExactValue(op, v) && SameLetters(f, v))
    ensures !Agree(f, op, v, text)
  {
    if !ExactValue(op, v) {
      text := InexactWitness(f, op, v);
    } else {
      text := LettersWitness(f, op, v);
      ExactAccepts(op, v, text);
    }
    PreviewIsExact(f, op, v, text);
  }

  /** Preview and script agree on every text just when the value is exact and the database takes the same
      characters for its letters; whatever folding that leaves the pattern characters alone the database uses. */
  lemma PreviewAgreesWithScript(f: char -> char, op: Operator, v: string)
    requires Respects(LIKE, f) && Respects(GLOB, f)
    ensures ExactValue(op, v) && SameLetters(f, v) <==> forall text :: Agree(f, op, v, text)
  {
    if ExactValue(op, v) && SameLetters(f, v) {
      forall text: string
        ensures Agree(f, op, v, text)
      {
        AgreeWhenExact(f, op, v, text);
      }
    } else {
      var text := DisagreeWitness(f, op, v);
    }
  }

  /** A folding as of a UTF-8 database, as far as one accented letter. */
  function AccentFold(c: char): char {
    if c == '\U{C9}' then '\U{E9}' else AsciiFold(c)
  }

  /** The preview counts a text with a small accented letter for a value with the capital; the script passes it by. */
  lemma AccentsAreNotFolded()
    ensures Respects(LIKE, AccentFold) && Respects(GLOB, AccentFold)
    ensures var value, text := "\U{C9}", "\U{E9}";
            && ExactValue(ContainsText, value)
            && Ilike(AccentFold, PatternFor(ContainsText, value), text)
            && !Accepts(AsCompiled, ContainsText, value, text)
  {
    var value, text := "\U{C9}", "\U{E9}";
    PreviewIsExact(AccentFold, ContainsText, value, text);
    MeansOnSameLength(AccentFold, ContainsText, value, text);
    MeansOnSameLength(AsciiFold, ContainsText, value, text);
    OneLetterExchanged(AccentFold, value, 0, text[0]);
    OneLetterExchanged(AsciiFold, value, 0, text[0]);
    assert value[0 := text[0]] == text;
  }

  /** The escaping the compiler applies to `*` and `?` does not survive string decoding. */
  lemma EscapedStarIsStillAPattern()
    ensures Accepts(AsCompiled, StartsWithText, "a*c", "abc") && !Accepts(AsWritten, StartsWithText, "a*c", "abc")
  {
    FoldedPatterns("a*c");
    assert Fold("a*c") == "a*c" && Fold("abc") == "abc";
    assert "a*c" + "*" == "a*c*" && "a*c*"[1..] == "*c*" && "*c*"[1..] == "c*" && "c*"[1..] == "*";
    assert "abc"[1..] == "bc" && "bc"[1..] == "c" && "c"[1..] == "";
    ManyMatchesAll(GLOB, "");
    assert GLOB.Matches("c*", "c");
    assert GLOB.Matches("*c*", "c");
    assert GLOB.Matches("*c*", "bc");
    assert GLOB.Matches("a*c*", "abc");
    assert "a*c"[1] != "abc"[1];
  }

  // ----- Whole scripts -----

  ghost predicate ExactRules(rules: seq<Rule>) {
    forall r | r in rules :: r.active && Compilable(r) ==> ExactValue(r.conditionOperator, r.conditionValue)
  }

  lemma ExactRuleFires(rule: Rule, message: Message)
    requires Compilable(rule) ==> ExactValue(rule.conditionOperator, rule.conditionValue)
    ensures Fires(AsCompiled, rule, message) <==> Fires(AsWritten, rule, message)
  {
    if Compilable(rule) {
      CompiledTestExactness(rule.conditionOperator, rule.conditionValue);
    }
  }

  lemma {:induction false} ExactApply(rules: seq<Rule>, flags: seq<string>, notify: string, message: Message)
    requires forall r | r in rules :: Compilable(r) ==> ExactValue(r.conditionOperator, r.conditionValue)
    ensures Apply(AsCompiled, rules, flags, notify, message) == Apply(AsWritten, rules, flags, notify, message)
  {
    if rules != [] {
      assert rules[0] in rules;
      forall r | r in rules[1..]
        ensures r in rules
      {
      }
      ExactRuleFires(rules[0], message);
      ExactApply(rules[1..], flags, notify, message);
      ExactApply(rules[1..], ["\\Seen"], notify, message);
    }
  }

  /** With exact values, the script on disk does to every message what the rules say as written. */
  lemma ScriptMeansWhatIsWritten(rules: seq<Rule>, options: Options, message: Message)
    requires ExactRules(rules)
    ensures var script := Parse(Script(rules, options));
            script.Some? && Interpret(script.value, message) == Some(Deliver(AsWritten, rules, options, message))
  {
    ScriptMeans(rules, options, message);
    var sorted := SortByPosition(ActiveRules(rules));
    forall r | r in sorted
      ensures r in rules && r.active
    {
      SortedAreActive(rules, r);
    }
    ExactApply(sorted, [], options.notifyScript, message);
  }

  /** For one rule the condition is also necessary: otherwise some message is treated against its wording. */
  lemma OneRuleExactness(rule: Rule, options: Options)
    requires rule.active && Compilable(rule)
    ensures ExactValue(rule.conditionOperator, rule.conditionValue)
       <==> forall message ::
              Interpret(Tree([rule], options), message) == Some(Deliver(AsWritten, [rule], options, message))
  {
    if ExactValue(rule.conditionOperator, rule.conditionValue) {
      forall message: Message
        ensures Interpret(Tree([rule], options), message) == Some(Deliver(AsWritten, [rule], options, message))
      {
        ScriptMeansWhatIsWritten([rule], options, message);
        TreeMeans([rule], options, message);
        ScriptMeans([rule], options, message);
      }
    } else {
      var text := InexactWitness(AsciiFold, rule.conditionOperator, rule.conditionValue);
      var header := HeaderFor(rule.conditionField).value;
      var message := Message([Header(header, text)]);
      TreeMeans([rule], options, message);
      OnlyHeader(header, text);
      OneRuleOrder(rule);
      OneRuleDiffers(rule, options, message);
    }
  }

  lemma OnlyHeader(header: string, text: string)
    requires header in {"from", "subject", "to"}
    ensures var message := Message([Header(header, text)]);
            !IsSpam(message) && forall h | h in message.headers :: h == Header(header, text)
  {
    assert |Fold(header)| != |Fold("X-Spam-Flag")|;
  }

  lemma OneRuleDiffers(rule: Rule, options: Options, message: Message)
    requires SortByPosition(ActiveRules([rule])) == [rule] && !IsSpam(message)
    requires Fires(AsCompiled, rule, message) && !Fires(AsWritten, rule, message)
    ensures Deliver(AsCompiled, [rule], options, message) != Deliver(AsWritten, [rule], options, message)
  {
    var notify := options.notifyScript;
    assert [rule][1..] == [];
    assert Apply(AsWritten, [rule], [], notify, message) == [Piped(notify, ["INBOX"]), Stored("INBOX", false, [])];
    if rule.action.MarkRead? {
      assert Apply(AsCompiled, [rule], [], notify, message) == [Piped(notify, ["INBOX"]), Stored("INBOX", false, ["\\Seen"])];
      assert Apply(AsCompiled, [rule], [], notify, message)[1] != Apply(AsWritten, [rule], [], notify, message)[1];
    } else {
      assert !Apply(AsCompiled, [rule], [], notify, message)[0].Piped?;
    }
  }
}
