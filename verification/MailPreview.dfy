/**
 * The preview of src/rules/rule.service.ts against the script on one message. The preview searches a column
 * of the message's row, the script a header of the message; for the sender the two hold different texts.
 */
module MailPreview {
  import opened Prelude
  import opened Wildcard
  import opened SieveCompiler
  import opened RulePreview
  import M = SieveMeaning
  import P = Projection

  // ----- One message, as a row and as headers -----

  /** Who a message is from: an address, often with a display name. */
  datatype Originator = Originator(name: Option<string>, address: string) {
    /** The From header. */
    function Text(): string {
      if name.None? then address else name.value + (" <" + (address + ">"))
    }
  }

  datatype Mail = Mail(from: Originator, recipient: string, subject: Option<string>)

  /** A listing takes the bare address and the subject from the envelope (src/messages/imap.client.ts). */
  predicate RowOf(row: P.Row, mail: Mail) {
    row.sender == mail.from.address && row.subject == mail.subject
  }

  function Arriving(mail: Mail): M.Message {
    M.Message([M.Header("From", mail.from.Text()), M.Header("To", mail.recipient)]
              + if mail.subject.None? then [] else [M.Header("Subject", mail.subject.value)])
  }

  /** The recipient has no preview; any other field searches a column. */
  function Column(field: Field, row: P.Row): Option<string> {
    if field.Sender? then Some(row.sender) else row.subject
  }

  /** A column that is NULL is never like anything. */
  predicate PatternOn(f: char -> char, rule: Rule, text: Option<string>) {
    text.Some? && Ilike(f, PatternFor(rule.conditionOperator, rule.conditionValue), text.value)
  }

  /** The query of previewCount. */
  predicate Counts(f: char -> char, rule: Rule, row: P.Row) {
    PatternOn(f, rule, Column(rule.conditionField, row))
  }

  /** The preview counts a row of the message exactly when the script's rule fires on it. */
  ghost predicate AgreeOn(f: char -> char, rule: Rule, mail: Mail) {
    forall row | RowOf(row, mail) :: Counts(f, rule, row) <==> M.Fires(M.AsCompiled, rule, Arriving(mail))
  }

  /** A rule whose field has a preview. */
  predicate Previewed(rule: Rule) {
    M.Compilable(rule) && !rule.conditionField.Recipient?
  }

  /** The column's text and the header's. */
  function Stored(rule: Rule, mail: Mail): Option<string> {
    if rule.conditionField.Sender? then Some(mail.from.address) else mail.subject
  }

  function Sent(rule: Rule, mail: Mail): Option<string> {
    match rule.conditionField
    case Sender => Some(mail.from.Text())
    case Recipient => Some(mail.recipient)
    case _ => mail.subject
  }

  predicate CompiledOn(rule: Rule, text: Option<string>) {
    text.Some? && M.Accepts(M.AsCompiled, rule.conditionOperator, rule.conditionValue, text.value)
  }

  /** The script looks at one header of the message. */
  lemma FiresOnHeader(rule: Rule, mail: Mail)
    requires M.Compilable(rule)
    ensures M.Fires(M.AsCompiled, rule, Arriving(mail)) <==> CompiledOn(rule, Sent(rule, mail))
  {
    var headers := Arriving(mail).headers;
    M.FiresOnItsHeader(M.AsCompiled, rule, Arriving(mail));
    assert |Fold("From")| == 4 && |Fold("To")| == 2 && |Fold("Subject")| == 7;
    assert Fold("From") == "from" && Fold("To") == "to" && Fold("Subject") == "subject";
    assert headers[0] == M.Header("From", mail.from.Text()) && headers[1] == M.Header("To", mail.recipient);
    if mail.subject.Some? {
      assert headers[2] == M.Header("Subject", mail.subject.value);
    }
  }

  lemma AgreeOnTexts(f: char -> char, rule: Rule, mail: Mail)
    requires Previewed(rule)
    ensures AgreeOn(f, rule, mail) <==> (PatternOn(f, rule, Stored(rule, mail)) <==> CompiledOn(rule, Sent(rule, mail)))
  {
    FiresOnHeader(rule, mail);
    var row := P.Row(0, "", "", None, mail.from.address, None, mail.subject, None, None, 0, None, false);
    assert RowOf(row, mail);
  }

  // ----- Subjects -----

  /** For the subject, the preview is right about every message just when it is right about every text. */
  lemma SubjectPreviewExactness(f: char -> char, rule: Rule)
    requires Respects(LIKE, f) && Respects(GLOB, f) && Previewed(rule) && rule.conditionField.Subject?
    ensures (forall mail :: AgreeOn(f, rule, mail))
       <==> ExactValue(rule.conditionOperator, rule.conditionValue) && SameLetters(f, rule.conditionValue)
  {
    var op, v := rule.conditionOperator, rule.conditionValue;
    if ExactValue(op, v) && SameLetters(f, v) {
      forall mail: Mail
        ensures AgreeOn(f, rule, mail)
      {
        AgreeOnTexts(f, rule, mail);
        if mail.subject.Some? {
          AgreeWhenExact(f, op, v, mail.subject.value);
        }
      }
    } else {
      var text := DisagreeWitness(f, op, v);
      var mail := Mail(Originator(None, ""), "", Some(text));
      AgreeOnTexts(f, rule, mail);
    }
  }

  // ----- Senders -----

  /** Without a display name column and header are the same text. */
  lemma NamelessAgrees(f: char -> char, rule: Rule, mail: Mail)
    requires Previewed(rule) && rule.conditionField.Sender? && mail.from.name.None?
    ensures AgreeOn(f, rule, mail) <==> Agree(f, rule.conditionOperator, rule.conditionValue, mail.from.address)
  {
    AgreeOnTexts(f, rule, mail);
  }

  /** With a value that reads alike on every text, what is left is whether address and header say the same. */
  lemma ExactOnTexts(f: char -> char, rule: Rule, mail: Mail)
    requires Respects(LIKE, f) && Previewed(rule) && rule.conditionField.Sender?
    requires ExactValue(rule.conditionOperator, rule.conditionValue) && SameLetters(f, rule.conditionValue)
    ensures var op, v := rule.conditionOperator, rule.conditionValue;
            AgreeOn(f, rule, mail) <==>
              (M.Means(AsciiFold, op, v, mail.from.address) <==> M.Means(AsciiFold, op, v, mail.from.Text()))
  {
    var op, v := rule.conditionOperator, rule.conditionValue;
    AgreeOnTexts(f, rule, mail);
    PreviewIsExact(f, op, v, mail.from.address);
    SameLettersAgree(f, op, v, mail.from.address);
    ExactAccepts(op, v, mail.from.Text());
  }

  lemma NamedText(name: string, address: string)
    ensures var text := Originator(Some(name), address).Text();
            && |text| == |name| + |address| + 3
            && text == (name + " <") + (address + ">")
            && Fold(text) == Fold(name + " <") + (Fold(address) + ">")
  {
    MapCharsConcat(AsciiFold, name + " <", address + ">");
    MapCharsConcat(AsciiFold, address, ">");
    assert Fold(">") == ">";
  }

  predicate EndsInBracket(v: string) {
    v != "" && v[|v| - 1] == '>'
  }

  /** On mail from a named sender, exactly when the preview is right. An equals rule must concern neither text; a
      contains rule must not match by the name or the brackets alone; an ends_with rule never fires unless
      its value is empty or ends in the closing bracket. */
  lemma NamedSenderExactness(f: char -> char, rule: Rule, mail: Mail)
    requires Respects(LIKE, f) && Previewed(rule) && rule.conditionField.Sender? && mail.from.name.Some?
    requires ExactValue(rule.conditionOperator, rule.conditionValue) && SameLetters(f, rule.conditionValue)
    ensures var op, v := rule.conditionOperator, rule.conditionValue;
            var byAddress, byHeader := M.Means(AsciiFold, op, v, mail.from.address), M.Means(AsciiFold, op, v, mail.from.Text());
            AgreeOn(f, rule, mail) <==>
              match op
              case EqualsText => !byAddress && !byHeader
              case ContainsText => byHeader ==> byAddress
              case StartsWithText => byAddress <==> byHeader
              case EndsWithText => v == "" || (if EndsInBracket(v) then byAddress <==> byHeader else !byAddress)
              case _ => false
  {
    var v, address := rule.conditionValue, mail.from.address;
    ExactOnTexts(f, rule, mail);
    NamedText(mail.from.name.value, address);
    if rule.conditionOperator.ContainsText? && Contains(Fold(address), Fold(v)) {
      PieceIsContained(Fold(mail.from.name.value + " <"), Fold(address), ">", Fold(v));
    }
    if rule.conditionOperator.EndsWithText? && v != "" && EndsWith(Fold(mail.from.Text()), Fold(v)) {
      var text := Fold(mail.from.Text());
      assert text[|text| - 1] == '>' && text[|text| - |v|..][|v| - 1] == text[|text| - 1];
      assert Fold(v)[|v| - 1] == '>';
    }
  }

  // ----- The sender preview over all mail -----

  lemma ContainsWitness(op: Operator, v: string) returns (from: Originator)
    requires v != "" && (op.ContainsText? || op.StartsWithText?)
    ensures !(M.Means(AsciiFold, op, v, from.address) <==> M.Means(AsciiFold, op, v, from.Text()))
  {
    from := Originator(Some(v), "");
    MapCharsConcat(AsciiFold, v, " <>");
    assert from.Text() == v + " <>";
    assert Fold(from.Text())[0..] == Fold(from.Text());
  }

  lemma EndOfNamed(name: string, address: string)
    ensures var text := Fold(Originator(Some(name), address).Text());
            |text| == |name| + |address| + 3 && text[|text| - |address| - 1..] == Fold(address) + ">"
  {
    NamedText(name, address);
    var before, after := Fold(name + " <"), Fold(address) + ">";
    assert (before + after)[|before|..] == after;
  }

  /** An address that is the value, or the value less a closing bracket. */
  lemma EndsWitness(v: string) returns (from: Originator)
    requires v != ""
    ensures !(M.Means(AsciiFold, EndsWithText, v, from.address) <==> M.Means(AsciiFold, EndsWithText, v, from.Text()))
  {
    from := Originator(Some("x"), v);
    if EndsWith(Fold(from.Text()), Fold(v)) {
      EndOfNamed("x", v);
      var text, key := Fold(from.Text()), Fold(v);
      assert text[|text| - |v|..] == text[|text| - |v| - 1..][1..] == key[1..] + ">";
      from := Originator(Some("x"), v[1..]);
      EndOfNamed("x", v[1..]);
      assert Fold(v[1..]) == key[1..];
    }
  }

  lemma SenderWitness(op: Operator, v: string) returns (from: Originator)
    requires !op.OtherOperator? && (v != "" || op.EqualsText?)
    ensures !(M.Means(AsciiFold, op, v, from.address) <==> M.Means(AsciiFold, op, v, from.Text()))
  {
    match op
    case EqualsText =>
      from := Originator(Some("x"), v);
      NamedText("x", v);
    case EndsWithText => from := EndsWitness(v);
    case _ => from := ContainsWitness(op, v);
  }

  lemma EmptyIsEverywhere(f: char -> char, rule: Rule, mail: Mail)
    requires Respects(LIKE, f) && Previewed(rule) && rule.conditionField.Sender?
    requires rule.conditionValue == "" && !rule.conditionOperator.EqualsText?
    ensures AgreeOn(f, rule, mail)
  {
    ExactOnTexts(f, rule, mail);
    forall text: string
      ensures M.Means(AsciiFold, rule.conditionOperator, "", text)
    {
      MeansPiece(AsciiFold, rule.conditionOperator, "", text);
      assert SameText(AsciiFold, "", "");
      assert text[0..0] == "" == text[|text|..|text|];
      assert HasAt(AsciiFold, "", text, 0);
    }
  }

  /** For the sender, no value but the empty one is previewed rightly for all mail; and no value is that a rule may have. */
  lemma SenderPreviewExactness(f: char -> char, rule: Rule)
    requires Respects(LIKE, f) && Respects(GLOB, f) && Previewed(rule) && rule.conditionField.Sender?
    ensures (forall mail :: AgreeOn(f, rule, mail)) <==> rule.conditionValue == "" && !rule.conditionOperator.EqualsText?
  {
    var op, v := rule.conditionOperator, rule.conditionValue;
    if v == "" && !op.EqualsText? {
      forall mail: Mail
        ensures AgreeOn(f, rule, mail)
      {
        EmptyIsEverywhere(f, rule, mail);
      }
    } else if ExactValue(op, v) && SameLetters(f, v) {
      var from := SenderWitness(op, v);
      var mail := Mail(from, "", None);
      ExactOnTexts(f, rule, mail);
    } else {
      var text := DisagreeWitness(f, op, v);
      var mail := Mail(Originator(None, text), "", None);
      NamelessAgrees(f, rule, mail);
    }
  }
}
