/** From the rules a user edits to what the delivery agent does with a message. */
module MailFiling {
  import opened Prelude
  import opened SieveCompiler
  import opened SieveSyntax
  import opened RuleStore
  import opened ScriptStore
  import M = SieveMeaning

  /** The effects of the text on a message, None when it is no valid script. */
  function Filed(text: string, message: M.Message): Option<seq<M.Effect>> {
    var script := Parse(text);
    if script.None? then None else M.Interpret(script.value, message)
  }

  /** At moment k the mailbox is at the address, and some list of its rules files the message this way. */
  ghost predicate FiledByRulesOf(env: Setting, worlds: seq<World>, target: Target, k: nat, m: Id, message: M.Message, effects: Option<seq<M.Effect>>) {
    && k < |worlds| && m in worlds[k].mailboxes && worlds[k].mailboxes[m] == target
    && exists rules :: Lists(worlds[k].rules, m, rules)
                       && effects == Some(M.Deliver(M.AsCompiled, rules, env.options, message))
  }

  lemma CompiledFiles(env: Setting, worlds: seq<World>, target: Target, k: nat, m: Id, text: string, message: M.Message)
    requires CompiledAt(env, worlds, target, k, m, text)
    ensures FiledByRulesOf(env, worlds, target, k, m, message, Filed(text, message))
  {
    var rules :| Lists(worlds[k].rules, m, rules) && text == Script(rules, env.options);
    M.ScriptMeans(rules, env.options, message);
  }

  /** Whatever failed before and whoever held the address, mail is filed by the rules that a mailbox at the
      address had at some moment. */
  lemma MailIsAlwaysFiled(env: Setting, worlds: seq<World>, events: seq<Event>, target: Target, n: nat, message: M.Message) returns (k: nat, m: Id)
    requires ScriptStore.IsRun(env, worlds, events) && n < |worlds| && '/' !in target.domainName
    requires PathFor(env.root, target) !in worlds[0].disk && PathFor(env.root, target) in worlds[n].disk
    ensures k <= n && FiledByRulesOf(env, worlds, target, k, m, message, Filed(worlds[n].disk[PathFor(env.root, target)], message))
  {
    k, m := ScriptsAreAlwaysWhole(env, worlds, events, target, n);
    CompiledFiles(env, worlds, target, k, m, worlds[n].disk[PathFor(env.root, target)], message);
  }

  /** After an accepted reorder whose write succeeds, mail is filed by the same rules in the requested order. */
  lemma ReorderedMailIsFiled(env: Setting, w: World, w': World, m: Id, ids: seq<Id>, script: string, attempt: Attempt, message: M.Message)
    returns (rules: seq<Rule>)
    requires SoundWorld(w) && m in w.mailboxes && attempt.Succeeds()
    requires Happens(env, w, Requested(m, Reorder(ids), Ok, script, attempt), w')
    ensures |rules| == |ids|
    ensures forall i | 0 <= i < |ids| :: Owned(w.rules, m, ids[i]) && rules[i] == w.rules[ids[i]].(position := i + 1)
    ensures PathFor(env.root, w.mailboxes[m]) in w'.disk
    ensures Filed(w'.disk[PathFor(env.root, w.mailboxes[m])], message) == Some(M.Deliver(M.AsCompiled, rules, env.options, message))
  {
    rules :| Lists(w'.rules, m, rules) && script == Script(rules, env.options);
    ReorderShowsRequestedOrder(w.rules, m, ids, rules);
    WriteIsAtomic(w.disk, env.root, w.mailboxes[m], script, attempt, w.mailboxes[m]);
    M.ScriptMeans(rules, env.options, message);
  }
}
