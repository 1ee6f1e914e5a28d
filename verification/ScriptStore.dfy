/**
 * The scripts on disk: src/rules/sieve.writer.ts, src/rules/sieve.reconciler.ts and the regeneration
 * in src/rules/rule.service.ts. Every step of a write may fail, and a request whose write fails keeps
 * its change to the rules.
 */
module ScriptStore {
  import opened Prelude
  import opened SieveCompiler
  import opened RuleStore

  datatype Target = Target(domainName: string, localPart: string)

  type Disk = map<string, string>

  const SLASH := "/"
  const EXTENSION := ".sieve"
  const STAGED := ".staged"

  // ----- Paths -----

  function Dir(root: string, target: Target): string {
    root + (SLASH + target.domainName)
  }

  function PathFor(root: string, target: Target): string {
    Dir(root, target) + (SLASH + (target.localPart + EXTENSION))
  }

  function StagingFor(root: string, target: Target): string {
    PathFor(root, target) + STAGED
  }

  lemma SamePrefixLength(a: string, b: string, x: string, y: string)
    requires a + x == b + y && |a| == |b|
    ensures a == b && x == y
  {
    assert a == (a + x)[..|a|] && b == (b + y)[..|b|];
    assert x == (a + x)[|a|..] && y == (b + y)[|b|..];
  }

  /** The first slash splits a path in one way only. */
  lemma SplitAtSlash(a: string, b: string, x: string, y: string)
    requires '/' !in a && '/' !in b
    requires a + ("/" + x) == b + ("/" + y)
    ensures a == b && x == y
  {
    var p, q := a + ("/" + x), b + ("/" + y);
    assert p[|a|] == '/' && q[|b|] == '/';
    assert forall i | 0 <= i < |a| :: p[i] == a[i] != '/';
    assert forall i | 0 <= i < |b| :: q[i] == b[i] != '/';
    SamePrefixLength(a, b, "/" + x, "/" + y);
    SamePrefixLength("/", "/", x, y);
  }

  lemma PathParts(root: string, target: Target)
    ensures PathFor(root, target) == root + (SLASH + (target.domainName + (SLASH + (target.localPart + EXTENSION))))
  {
    var tail := SLASH + (target.localPart + EXTENSION);
    ConcatAssociates(root, SLASH + target.domainName, tail);
    ConcatAssociates(SLASH, target.domainName, tail);
  }

  /** Domain names hold no slash, so different mailboxes have different scripts. */
  lemma PathsDistinct(root: string, a: Target, b: Target)
    requires '/' !in a.domainName && '/' !in b.domainName
    requires PathFor(root, a) == PathFor(root, b)
    ensures a == b
  {
    var x, y := a.localPart + EXTENSION, b.localPart + EXTENSION;
    PathParts(root, a);
    PathParts(root, b);
    SamePrefixLength(root, root, SLASH + (a.domainName + (SLASH + x)), SLASH + (b.domainName + (SLASH + y)));
    SamePrefixLength(SLASH, SLASH, a.domainName + (SLASH + x), b.domainName + (SLASH + y));
    SplitAtSlash(a.domainName, b.domainName, x, y);
    assert |a.localPart| == |b.localPart|;
    SamePrefixLength(a.localPart, b.localPart, EXTENSION, EXTENSION);
  }

  /** A staging file is no mailbox's script. */
  lemma StagingIsNoScript(root: string, a: Target, b: Target)
    ensures StagingFor(root, a) != PathFor(root, b)
  {
    var staging, path := StagingFor(root, a), PathFor(root, b);
    assert staging[|staging| - 1] == STAGED[6];
    PathParts(root, b);
    LastChar(b.localPart, EXTENSION);
    LastChar(SLASH, b.localPart + EXTENSION);
    LastChar(Dir(root, b), SLASH + (b.localPart + EXTENSION));
  }

  lemma LastChar(a: string, b: string)
    requires b != ""
    ensures a + b != "" && (a + b)[|a + b| - 1] == b[|b| - 1]
  {
  }

  // ----- One write -----

  /** What sievec makes of a script: it compiles it, cannot be run or is not set up, or finds fault with it. */
  datatype Verdict = Compiled | Unusable(reason: string) | Faulty(reason: string) {
    /** All the writer sees of it. */
    function Error(): Option<string> {
      if Compiled? then None else Some(reason)
    }
  }

  /** An error the writer takes to mean that the compiler is not there, or not set up. */
  predicate IsUnavailable(reason: string) {
    Contains(reason, "ENOENT") || Contains(reason, "not found") || Contains(reason, "Failed to read configuration")
  }

  predicate Passes(error: Option<string>) {
    error.None? || IsUnavailable(error.value)
  }

  /** How the steps of one write go. `partial` is what a failed write of the staging file leaves in it. */
  datatype Attempt = Attempt(mkdir: bool, chmod: bool, stage: bool, partial: Option<string>, verdict: Verdict, rename: bool)
  {
    /** Every step but the compiler's. */
    predicate FilesWork() {
      mkdir && chmod && stage && rename
    }

    predicate Succeeds() {
      FilesWork() && Passes(verdict.Error())
    }
  }

  /** The disk after a write, step by step. */
  function Published(disk: Disk, staging: string, file: string, script: string, a: Attempt): Disk {
    if !a.mkdir || !a.chmod then disk
    else if !a.stage then (if a.partial.None? then disk else disk[staging := a.partial.value])
    else if !Passes(a.verdict.Error()) || !a.rename then disk[staging := script]
    else (disk - {staging})[file := script]
  }

  function Written(disk: Disk, root: string, target: Target, script: string, a: Attempt): Disk {
    Published(disk, StagingFor(root, target), PathFor(root, target), script, a)
  }

  predicate IsCurrent(disk: Disk, path: string, script: string) {
    path in disk && disk[path] == script
  }

  /** The path holds what it held before. */
  predicate SameFile(disk: Disk, disk': Disk, path: string) {
    (path in disk' <==> path in disk) && (path in disk ==> disk'[path] == disk[path])
  }

  /** A write replaces its script whole or not at all, and no other script. */
  lemma WriteIsAtomic(disk: Disk, root: string, target: Target, script: string, a: Attempt, other: Target)
    requires '/' !in target.domainName && '/' !in other.domainName
    ensures var disk', path := Written(disk, root, target, script, a), PathFor(root, other);
            if other == target && a.Succeeds() then IsCurrent(disk', path, script) else SameFile(disk, disk', path)
  {
    StagingIsNoScript(root, target, other);
    if PathFor(root, target) == PathFor(root, other) {
      PathsDistinct(root, target, other);
    }
  }

  /** The text of the compiler's error alone decides: one that passes makes no difference to a write, any other
      leaves every script as it was. */
  lemma ErrorTextDecides(disk: Disk, root: string, target: Target, script: string, a: Attempt, verdict: Verdict, other: Target)
    requires '/' !in target.domainName && '/' !in other.domainName
    ensures var disk' := Written(disk, root, target, script, a.(verdict := verdict));
            if Passes(verdict.Error())
            then disk' == Written(disk, root, target, script, a.(verdict := Compiled))
            else SameFile(disk, disk', PathFor(root, other))
  {
    WriteIsAtomic(disk, root, target, script, a.(verdict := verdict), other);
  }

  /** The error texts that pass. */
  lemma PassesExactly(verdict: Verdict)
    ensures Passes(verdict.Error()) <==>
              verdict == Compiled || Contains(verdict.reason, "ENOENT") || Contains(verdict.reason, "not found")
              || Contains(verdict.reason, "Failed to read configuration")
  {
  }

  /** What a write leaves beside the script: nothing when it succeeds, and otherwise at most its staging file, which holds
      the whole script once it could be written; every other file is as it was. */
  lemma WriteLeavesStagingOnly(disk: Disk, root: string, target: Target, script: string, a: Attempt, path: string)
    ensures var disk', file := Written(disk, root, target, script, a), PathFor(root, target);
            && (path != file && path != file + ".staged" ==> SameFile(disk, disk', path))
            && (a.Succeeds() ==> file + ".staged" !in disk')
            && (a.mkdir && a.chmod && a.stage && !a.Succeeds() ==> IsCurrent(disk', file + ".staged", script))
            && (!(a.mkdir && a.chmod) ==> disk' == disk)
            && (a.mkdir && a.chmod && !a.stage ==>
                  disk' == if a.partial.None? then disk else disk[file + ".staged" := a.partial.value])
  {
  }

  /** Where the script of an address lies. */
  lemma PathOf(root: string, target: Target)
    ensures PathFor(root, target) == root + ("/" + (target.domainName + ("/" + (target.localPart + ".sieve"))))
  {
    PathParts(root, target);
  }

  /** A script the compiler finds fault with is installed exactly when the rest of the write works and the fault
      reads as a missing compiler, unless it was in place before. */
  lemma FaultyScriptIsInstalledExactly(disk: Disk, root: string, target: Target, script: string, a: Attempt)
    requires '/' !in target.domainName && a.verdict.Faulty?
    ensures var path := PathFor(root, target);
            IsCurrent(Written(disk, root, target, script, a), path, script)
            <==> IsCurrent(disk, path, script) || (a.FilesWork() && IsUnavailable(a.verdict.reason))
  {
    WriteIsAtomic(disk, root, target, script, a, target);
  }

  /** It does when the fault quotes a rule's value with `not found` in it, as an address to forward to may be. */
  lemma QuotedValueInstallsFaultyScript(disk: Disk, root: string, target: Target, script: string, a: Attempt,
                                        before: string, value: string, after: string)
    requires '/' !in target.domainName && a.FilesWork()
    requires Contains(value, "not found") && a.verdict == Faulty(before + (value + after))
    ensures IsCurrent(Written(disk, root, target, script, a), PathFor(root, target), script)
  {
    PieceIsContained(before, value, after, "not found");
    FaultyScriptIsInstalledExactly(disk, root, target, script, a);
  }

  // ----- One reconciliation -----

  /** Where scripts go and how they are written. */
  datatype Setting = Setting(root: string, options: Options)

  /** One turn of the reconciliation: nothing when the script reads as current, else a write. */
  datatype Turn = Turn(mailbox: Id, target: Target, script: string, readable: bool, attempt: Attempt)

  predicate Skips(disk: Disk, env: Setting, turn: Turn) {
    turn.readable && IsCurrent(disk, PathFor(env.root, turn.target), turn.script)
  }

  function AfterTurn(disk: Disk, env: Setting, turn: Turn): Disk {
    if Skips(disk, env, turn) then disk
    else Written(disk, env.root, turn.target, turn.script, turn.attempt)
  }

  function Reconciled(disk: Disk, env: Setting, turns: seq<Turn>): Disk
  {
    if turns == [] then disk
    else AfterTurn(Reconciled(disk, env, turns[..|turns| - 1]), env, turns[|turns| - 1])
  }

  function WritesOf(disk: Disk, env: Setting, turns: seq<Turn>): nat
  {
    if turns == [] then 0
    else
      var before, last := turns[..|turns| - 1], turns[|turns| - 1];
      WritesOf(disk, env, before)
      + if Skips(Reconciled(disk, env, before), env, last) || !last.attempt.Succeeds() then 0 else 1
  }

  /** Each turn is at an address of its own, in a domain without a slash. */
  ghost predicate Apart(turns: seq<Turn>) {
    && (forall i | 0 <= i < |turns| :: '/' !in turns[i].target.domainName)
    && forall i, j | 0 <= i < j < |turns| :: turns[i].target != turns[j].target
  }

  predicate Done(disk: Disk, env: Setting, turn: Turn) {
    turn.attempt.Succeeds() || Skips(disk, env, turn)
  }

  lemma TurnOnOthers(disk: Disk, env: Setting, turn: Turn, other: Target)
    requires '/' !in turn.target.domainName && '/' !in other.domainName
    ensures var disk', path := AfterTurn(disk, env, turn), PathFor(env.root, other);
            if other == turn.target && Done(disk, env, turn)
            then IsCurrent(disk', path, turn.script) else SameFile(disk, disk', path)
  {
    WriteIsAtomic(disk, env.root, turn.target, turn.script, turn.attempt, other);
  }

  /** An address without a turn keeps its script through a reconciliation. */
  lemma {:induction false} ReconcileLeavesOthers(disk: Disk, env: Setting, turns: seq<Turn>, other: Target)
    requires Apart(turns) && '/' !in other.domainName
    requires forall i | 0 <= i < |turns| :: turns[i].target != other
    ensures SameFile(disk, Reconciled(disk, env, turns), PathFor(env.root, other))
  {
    if turns != [] {
      var before, last := turns[..|turns| - 1], turns[|turns| - 1];
      ReconcileLeavesOthers(disk, env, before, other);
      TurnOnOthers(Reconciled(disk, env, before), env, last, other);
    }
  }

  /** Each address ends with the script of its rules unless its own write failed; no other failure matters. */
  lemma {:induction false} ReconcileIsolatesFailures(disk: Disk, env: Setting, turns: seq<Turn>, i: nat)
    requires Apart(turns) && i < |turns|
    ensures var disk', path := Reconciled(disk, env, turns), PathFor(env.root, turns[i].target);
            if Done(disk, env, turns[i])
            then IsCurrent(disk', path, turns[i].script) else SameFile(disk, disk', path)
  {
    var before, last := turns[..|turns| - 1], turns[|turns| - 1];
    var disk1 := Reconciled(disk, env, before);
    TurnOnOthers(disk1, env, last, turns[i].target);
    if i == |turns| - 1 {
      ReconcileLeavesOthers(disk, env, before, last.target);
    } else {
      ReconcileIsolatesFailures(disk, env, before, i);
    }
  }

  /** A script out of date, or that could not be read, and that is written. */
  predicate Rewrites(disk: Disk, env: Setting, turn: Turn) {
    turn.attempt.Succeeds() && !(turn.readable && IsCurrent(disk, PathFor(env.root, turn.target), turn.script))
  }

  function Wrote(disk: Disk, env: Setting, turns: seq<Turn>): seq<bool> {
    seq(|turns|, i requires 0 <= i < |turns| => Rewrites(disk, env, turns[i]))
  }

  ghost function Trues(marks: seq<bool>): set<nat> {
    set i: nat | i < |marks| && marks[i]
  }

  lemma TruesNext(marks: seq<bool>, last: bool)
    ensures |Trues(marks + [last])| == |Trues(marks)| + if last then 1 else 0
  {
    if last {
      assert Trues(marks + [last]) == Trues(marks) + {|marks|};
    } else {
      assert Trues(marks + [last]) == Trues(marks);
    }
  }

  lemma LastFindsOwnFile(disk: Disk, env: Setting, before: seq<Turn>, last: Turn)
    requires Apart(before + [last])
    ensures Skips(Reconciled(disk, env, before), env, last) <==> Skips(disk, env, last)
  {
    var turns := before + [last];
    forall i | 0 <= i < |before|
      ensures before[i].target != last.target && '/' !in before[i].target.domainName
    {
      assert turns[i] == before[i] && turns[|before|] == last;
    }
    assert '/' !in turns[|before|].target.domainName;
    FewerAreApart(before, last);
    ReconcileLeavesOthers(disk, env, before, last.target);
  }

  lemma WritesOfMore(disk: Disk, env: Setting, before: seq<Turn>, last: Turn)
    requires Apart(before + [last])
    ensures WritesOf(disk, env, before + [last]) == WritesOf(disk, env, before) + if Rewrites(disk, env, last) then 1 else 0
  {
    assert (before + [last])[..|before|] == before;
    LastFindsOwnFile(disk, env, before, last);
  }

  lemma FewerAreApart(before: seq<Turn>, last: Turn)
    requires Apart(before + [last])
    ensures Apart(before)
  {
    assert forall i | 0 <= i < |before| :: (before + [last])[i] == before[i];
  }

  lemma WroteMore(disk: Disk, env: Setting, before: seq<Turn>, last: Turn)
    ensures Wrote(disk, env, before + [last]) == Wrote(disk, env, before) + [Rewrites(disk, env, last)]
  {
  }

  /** The count of a reconciliation is that of the scripts that were out of date or could not be read, and were written. */
  lemma {:induction false} WritesAreCounted(disk: Disk, env: Setting, turns: seq<Turn>)
    requires Apart(turns)
    ensures WritesOf(disk, env, turns) == |Trues(Wrote(disk, env, turns))|
    decreases |turns|
  {
    if turns != [] {
      var before, last := turns[..|turns| - 1], turns[|turns| - 1];
      assert turns == before + [last];
      FewerAreApart(before, last);
      WritesAreCounted(disk, env, before);
      WritesOfMore(disk, env, before, last);
      WroteMore(disk, env, before, last);
      TruesNext(Wrote(disk, env, before), Rewrites(disk, env, last));
    }
  }

  predicate TurnCurrent(disk: Disk, env: Setting, turn: Turn) {
    IsCurrent(disk, PathFor(env.root, turn.target), turn.script)
  }

  ghost predicate AllCurrent(disk: Disk, env: Setting, turns: seq<Turn>) {
    forall i | 0 <= i < |turns| :: TurnCurrent(disk, env, turns[i])
  }

  /** When every script is current and readable, a reconciliation writes nothing. */
  lemma {:induction false} CurrentMeansIdle(disk: Disk, env: Setting, turns: seq<Turn>)
    requires AllCurrent(disk, env, turns)
    requires forall i | 0 <= i < |turns| :: turns[i].readable
    ensures Reconciled(disk, env, turns) == disk && WritesOf(disk, env, turns) == 0
  {
    if turns != [] {
      assert TurnCurrent(disk, env, turns[|turns| - 1]);
      CurrentMeansIdle(disk, env, turns[..|turns| - 1]);
    }
  }

  // ----- Mailboxes, rules and scripts -----

  /** Addresses are unique, and domain names hold no slash. */
  ghost predicate UniqueAddresses(mailboxes: map<Id, Target>) {
    && (forall m | m in mailboxes :: '/' !in mailboxes[m].domainName)
    && forall m, n | m in mailboxes && n in mailboxes && mailboxes[m] == mailboxes[n] :: m == n
  }

  /** The turns list mailboxes at most once, each with its address and the script of the rules it has. */
  ghost predicate Turns(t: Rules, mailboxes: map<Id, Target>, options: Options, turns: seq<Turn>) {
    && (forall i | 0 <= i < |turns| :: IsTurn(t, mailboxes, options, turns[i]))
    && forall i, j | 0 <= i < j < |turns| :: turns[i].mailbox != turns[j].mailbox
  }

  ghost predicate IsTurn(t: Rules, mailboxes: map<Id, Target>, options: Options, turn: Turn) {
    && turn.mailbox in mailboxes && turn.target == mailboxes[turn.mailbox]
    && IsScriptOf(t, turn.mailbox, options, turn.script)
  }

  lemma TurnsAreApart(t: Rules, mailboxes: map<Id, Target>, options: Options, turns: seq<Turn>)
    requires UniqueAddresses(mailboxes) && Turns(t, mailboxes, options, turns)
    ensures Apart(turns)
  {
    forall i | 0 <= i < |turns|
      ensures turns[i].mailbox in mailboxes && turns[i].target == mailboxes[turns[i].mailbox]
    {
      assert IsTurn(t, mailboxes, options, turns[i]);
    }
  }

  ghost predicate HasTurn(turns: seq<Turn>, m: Id) {
    exists j :: 0 <= j < |turns| && turns[j].mailbox == m
  }

  /** The text is the script of a list of the mailbox's rules. */
  ghost predicate IsScriptOf(t: Rules, mailbox: Id, options: Options, text: string) {
    exists rules :: Lists(t, mailbox, rules) && text == Script(rules, options)
  }

  lemma ScriptIsUnique(t: Rules, mailbox: Id, options: Options, a: string, b: string)
    requires PositionsKept(t) && IsScriptOf(t, mailbox, options, a) && IsScriptOf(t, mailbox, options, b)
    ensures a == b
  {
    var x :| Lists(t, mailbox, x) && a == Script(x, options);
    var y :| Lists(t, mailbox, y) && b == Script(y, options);
    ListIsUnique(t, mailbox, x, y);
  }

  lemma AllWrittenAreCurrent(disk: Disk, env: Setting, turns: seq<Turn>)
    requires Apart(turns) && forall i | 0 <= i < |turns| :: turns[i].attempt.Succeeds()
    ensures AllCurrent(Reconciled(disk, env, turns), env, turns)
  {
    forall i | 0 <= i < |turns|
      ensures TurnCurrent(Reconciled(disk, env, turns), env, turns[i])
    {
      ReconcileIsolatesFailures(disk, env, turns, i);
    }
  }

  lemma CurrentForBoth(t: Rules, mailboxes: map<Id, Target>, disk: Disk, env: Setting, first: seq<Turn>, second: seq<Turn>)
    requires PositionsKept(t) && Turns(t, mailboxes, env.options, first) && Turns(t, mailboxes, env.options, second)
    requires forall i | 0 <= i < |second| :: HasTurn(first, second[i].mailbox)
    requires AllCurrent(disk, env, first)
    ensures AllCurrent(disk, env, second)
  {
    forall i | 0 <= i < |second|
      ensures TurnCurrent(disk, env, second[i])
    {
      assert HasTurn(first, second[i].mailbox);
      var j :| 0 <= j < |first| && first[j].mailbox == second[i].mailbox;
      assert TurnCurrent(disk, env, first[j]);
      assert IsTurn(t, mailboxes, env.options, first[j]) && IsTurn(t, mailboxes, env.options, second[i]);
      ScriptIsUnique(t, first[j].mailbox, env.options, first[j].script, second[i].script);
    }
  }

  /** A reconciliation whose writes all succeed leaves every script current, and one after it over the same
      mailboxes and rules writes nothing. */
  lemma SecondReconcileIsIdle(t: Rules, mailboxes: map<Id, Target>, disk: Disk, env: Setting, first: seq<Turn>, second: seq<Turn>)
    requires UniqueAddresses(mailboxes) && PositionsKept(t)
    requires Turns(t, mailboxes, env.options, first) && Turns(t, mailboxes, env.options, second)
    requires forall i | 0 <= i < |first| :: first[i].attempt.Succeeds()
    requires forall i | 0 <= i < |second| :: second[i].readable && HasTurn(first, second[i].mailbox)
    ensures var once := Reconciled(disk, env, first);
            && AllCurrent(once, env, first)
            && Reconciled(once, env, second) == once
            && WritesOf(once, env, second) == 0
  {
    TurnsAreApart(t, mailboxes, env.options, first);
    AllWrittenAreCurrent(disk, env, first);
    CurrentForBoth(t, mailboxes, Reconciled(disk, env, first), env, first, second);
    CurrentMeansIdle(Reconciled(disk, env, first), env, second);
  }

  // ----- Runs in which mailboxes come and go -----

  /** Mailboxes with their addresses, their rules, and the disk at one moment. */
  datatype World = World(mailboxes: map<Id, Target>, rules: Rules, nextId: Id, disk: Disk)

  ghost predicate SoundWorld(w: World) {
    && UniqueAddresses(w.mailboxes)
    && Sound(w.rules, w.nextId)
    && (forall m | m in w.mailboxes :: m < w.nextId)
    && forall r | r in w.rules :: w.rules[r].mailboxId in w.mailboxes
  }

  /** One event: a mailbox created, with its first script whose failure is swallowed; one deleted, which
      leaves its script behind; a request, with the write it triggers when it was accepted; a reconciliation. */
  datatype Event =
    | Created(target: Target, attempt: Attempt)
    | Deleted(mailbox: Id)
    | Requested(mailbox: Id, request: Request, reply: Reply, script: string, attempt: Attempt)
    | Reconciling(turns: seq<Turn>)

  ghost predicate Happens(env: Setting, w: World, e: Event, w': World) {
    match e
    case Created(target, attempt) =>
      && '/' !in target.domainName && target !in w.mailboxes.Values
      && w' == World(w.mailboxes[w.nextId := target], w.rules, w.nextId + 1,
                     Written(w.disk, env.root, target, Script([], env.options), attempt))
    case Deleted(m) =>
      && m in w.mailboxes
      && w' == w.(mailboxes := w.mailboxes - {m}, rules := map r | r in w.rules && w.rules[r].mailboxId != m :: w.rules[r])
    case Requested(m, request, reply, script, attempt) =>
      && m in w.mailboxes
      && w'.mailboxes == w.mailboxes
      && w'.nextId == w.nextId + 1
      && Step(w.rules, w.nextId, m, request, w'.rules, reply)
      && if reply.Ok?
         then IsScriptOf(w'.rules, m, env.options, script)
              && w'.disk == Written(w.disk, env.root, w.mailboxes[m], script, attempt)
         else w'.disk == w.disk
    case Reconciling(turns) =>
      Turns(w.rules, w.mailboxes, env.options, turns) && w' == w.(disk := Reconciled(w.disk, env, turns))
  }

  lemma RequestKeepsOwners(t: Rules, next: Id, m: Id, request: Request, t': Rules, reply: Reply, mailboxes: map<Id, Target>)
    requires Step(t, next, m, request, t', reply) && m in mailboxes
    requires forall r | r in t :: t[r].mailboxId in mailboxes
    ensures forall r | r in t' :: t'[r].mailboxId in mailboxes
  {
  }

  lemma DeletionKeepsRules(t: Rules, next: Id, m: Id)
    requires Sound(t, next)
    ensures Sound(map r | r in t && t[r].mailboxId != m :: t[r], next)
  {
  }

  lemma RequestKeepsSound(w: World, m: Id, request: Request, rules: Rules, reply: Reply, disk: Disk)
    requires SoundWorld(w) && m in w.mailboxes && Step(w.rules, w.nextId, m, request, rules, reply)
    ensures SoundWorld(World(w.mailboxes, rules, w.nextId + 1, disk))
  {
    StepKeepsPositions(w.rules, w.nextId, m, request, rules, reply);
    RequestKeepsOwners(w.rules, w.nextId, m, request, rules, reply, w.mailboxes);
  }

  lemma CreationKeepsAddresses(mailboxes: map<Id, Target>, m: Id, target: Target)
    requires UniqueAddresses(mailboxes) && target !in mailboxes.Values && '/' !in target.domainName
    ensures UniqueAddresses(mailboxes[m := target])
  {
    assert forall n | n in mailboxes :: mailboxes[n] in mailboxes.Values;
  }

  lemma EventKeepsSound(env: Setting, w: World, e: Event, w': World)
    requires SoundWorld(w) && Happens(env, w, e, w')
    ensures SoundWorld(w')
  {
    match e
    case Created(target, attempt) => CreationKeepsAddresses(w.mailboxes, w.nextId, target);
    case Deleted(m) => DeletionKeepsRules(w.rules, w.nextId, m);
    case Requested(m, request, reply, script, attempt) => RequestKeepsSound(w, m, request, w'.rules, reply, w'.disk);
    case Reconciling(turns) =>
  }

  ghost predicate IsRun(env: Setting, worlds: seq<World>, events: seq<Event>) {
    && |worlds| == |events| + 1
    && SoundWorld(worlds[0])
    && forall i | 0 <= i < |events| :: Happens(env, worlds[i], events[i], worlds[i + 1])
  }

  lemma {:induction false} RunStaysSound(env: Setting, worlds: seq<World>, events: seq<Event>, n: nat)
    requires IsRun(env, worlds, events) && n < |worlds|
    ensures SoundWorld(worlds[n])
  {
    if n > 0 {
      RunStaysSound(env, worlds, events, n - 1);
      EventKeepsSound(env, worlds[n - 1], events[n - 1], worlds[n]);
    }
  }

  /** Any mailbox may be deleted. It goes with its rules, and nothing else does: no file, no other mailbox or rule. */
  lemma MailboxIsDeleted(env: Setting, w: World, m: Id)
    ensures (exists w' :: Happens(env, w, Deleted(m), w')) <==> m in w.mailboxes
    ensures forall w' | Happens(env, w, Deleted(m), w') ::
              && w'.disk == w.disk && w'.nextId == w.nextId
              && (forall n :: n in w'.mailboxes <==> n in w.mailboxes && n != m)
              && (forall n | n in w'.mailboxes :: w'.mailboxes[n] == w.mailboxes[n])
              && (forall r :: r in w'.rules <==> r in w.rules && w.rules[r].mailboxId != m)
              && (forall r | r in w'.rules :: w'.rules[r] == w.rules[r])
  {
    var gone := w.(mailboxes := w.mailboxes - {m}, rules := map r | r in w.rules && w.rules[r].mailboxId != m :: w.rules[r]);
    if m in w.mailboxes {
      assert Happens(env, w, Deleted(m), gone);
    }
  }

  /** A mailbox may be created at any address no other has, under an id never used before; it has no rules, and its first script, if it
      is written, is that of none. */
  lemma MailboxIsCreated(env: Setting, w: World, target: Target, attempt: Attempt, w': World)
    requires SoundWorld(w) && Happens(env, w, Created(target, attempt), w')
    ensures w.nextId !in w.mailboxes && w'.mailboxes == w.mailboxes[w.nextId := target] && w.nextId < w'.nextId
    ensures forall m | m in w.mailboxes :: w.mailboxes[m] != target
    ensures w'.rules == w.rules && forall r | r in w.rules :: w.rules[r].mailboxId != w.nextId
    ensures attempt.Succeeds() ==> IsCurrent(w'.disk, PathFor(env.root, target), Script([], env.options))
    ensures !attempt.Succeeds() ==> SameFile(w.disk, w'.disk, PathFor(env.root, target))
  {
    assert forall m | m in w.mailboxes :: w.mailboxes[m] in w.mailboxes.Values;
    WriteIsAtomic(w.disk, env.root, target, Script([], env.options), attempt, target);
  }

  // ----- Whose rules a script comes from -----

  /** The event leaves the mailbox's own script at the address: a write that succeeded, or found it current. */
  ghost predicate Serves(env: Setting, w: World, e: Event, target: Target, m: Id) {
    match e
    case Created(t, attempt) => t == target && m == w.nextId && attempt.Succeeds()
    case Deleted(_) => false
    case Requested(mailbox, _, reply, _, attempt) =>
      mailbox == m && m in w.mailboxes && w.mailboxes[m] == target && reply.Ok? && attempt.Succeeds()
    case Reconciling(turns) =>
      exists i :: 0 <= i < |turns| && turns[i].mailbox == m && turns[i].target == target && Done(w.disk, env, turns[i])
  }

  /** Some mailbox's script is put at the address, or confirmed there. */
  ghost predicate IsServed(env: Setting, w: World, e: Event, target: Target) {
    exists m :: Serves(env, w, e, target, m)
  }

  /** The file at the address is this mailbox's script, and the address is its own. */
  ghost predicate HasOwnScript(env: Setting, w: World, target: Target, m: Id) {
    && m in w.mailboxes && w.mailboxes[m] == target
    && PathFor(env.root, target) in w.disk
    && IsScriptOf(w.rules, m, env.options, w.disk[PathFor(env.root, target)])
  }

  lemma NewMailboxHasNoRules(w: World)
    requires SoundWorld(w)
    ensures Lists(w.rules, w.nextId, [])
  {
  }

  lemma ServedHasOwnScript(env: Setting, w: World, e: Event, w': World, target: Target, m: Id)
    requires SoundWorld(w) && Happens(env, w, e, w') && Serves(env, w, e, target, m)
    ensures HasOwnScript(env, w', target, m)
  {
    match e
    case Created(t, attempt) =>
      NewMailboxHasNoRules(w);
      WriteIsAtomic(w.disk, env.root, t, Script([], env.options), attempt, target);
    case Deleted(_) =>
    case Requested(mailbox, request, reply, script, attempt) =>
      WriteIsAtomic(w.disk, env.root, target, script, attempt, target);
    case Reconciling(turns) =>
      var i :| 0 <= i < |turns| && turns[i].mailbox == m && turns[i].target == target && Done(w.disk, env, turns[i]);
      TurnsAreApart(w.rules, w.mailboxes, env.options, turns);
      ReconcileIsolatesFailures(w.disk, env, turns, i);
      assert IsTurn(w.rules, w.mailboxes, env.options, turns[i]);
  }

  lemma UnservedKeepsFile(env: Setting, w: World, e: Event, w': World, target: Target)
    requires SoundWorld(w) && Happens(env, w, e, w') && '/' !in target.domainName
    requires !IsServed(env, w, e, target)
    ensures SameFile(w.disk, w'.disk, PathFor(env.root, target))
  {
    match e
    case Created(t, attempt) =>
      assert !Serves(env, w, e, target, w.nextId);
      WriteIsAtomic(w.disk, env.root, t, Script([], env.options), attempt, target);
    case Deleted(_) =>
    case Requested(mailbox, request, reply, script, attempt) =>
      assert !Serves(env, w, e, target, mailbox);
      if reply.Ok? {
        WriteIsAtomic(w.disk, env.root, w.mailboxes[mailbox], script, attempt, target);
      }
    case Reconciling(turns) =>
      TurnsAreApart(w.rules, w.mailboxes, env.options, turns);
      if i :| 0 <= i < |turns| && turns[i].target == target {
        assert !Serves(env, w, e, target, turns[i].mailbox);
        ReconcileIsolatesFailures(w.disk, env, turns, i);
      } else {
        ReconcileLeavesOthers(w.disk, env, turns, target);
      }
  }

  /** From moment i to moment n no event serves the address. */
  ghost predicate Unserved(env: Setting, worlds: seq<World>, events: seq<Event>, target: Target, i: nat, n: nat)
    requires n <= |events| < |worlds|
  {
    forall k | i <= k < n :: !IsServed(env, worlds[k], events[k], target)
  }

  lemma {:induction false} LastService(env: Setting, worlds: seq<World>, events: seq<Event>, target: Target, i: nat, n: nat) returns (k: nat)
    requires i <= n <= |events| < |worlds| && !Unserved(env, worlds, events, target, i, n)
    ensures i <= k < n && IsServed(env, worlds[k], events[k], target) && Unserved(env, worlds, events, target, k + 1, n)
    decreases n
  {
    if IsServed(env, worlds[n - 1], events[n - 1], target) {
      k := n - 1;
    } else {
      k := LastService(env, worlds, events, target, i, n - 1);
    }
  }

  /** While no event serves an address, its script stays as it is, whoever holds the address meanwhile. */
  lemma {:induction false} UnservedStays(env: Setting, worlds: seq<World>, events: seq<Event>, target: Target, i: nat, n: nat)
    requires IsRun(env, worlds, events) && i <= n < |worlds| && '/' !in target.domainName
    requires Unserved(env, worlds, events, target, i, n)
    ensures SameFile(worlds[i].disk, worlds[n].disk, PathFor(env.root, target))
    decreases n
  {
    if i < n {
      UnservedStays(env, worlds, events, target, i, n - 1);
      RunStaysSound(env, worlds, events, n - 1);
      UnservedKeepsFile(env, worlds[n - 1], events[n - 1], worlds[n], target);
    }
  }

  /** The event served the address, which is the mailbox's own afterwards, and the text is the script of its rules then. */
  ghost predicate ServiceOf(env: Setting, w: World, e: Event, w': World, target: Target, m: Id, text: string) {
    && Serves(env, w, e, target, m)
    && m in w'.mailboxes && w'.mailboxes[m] == target
    && IsScriptOf(w'.rules, m, env.options, text)
  }

  lemma ServicePutsOwnScript(env: Setting, w: World, e: Event, w': World, target: Target) returns (m: Id)
    requires SoundWorld(w) && Happens(env, w, e, w') && IsServed(env, w, e, target)
    ensures PathFor(env.root, target) in w'.disk
    ensures ServiceOf(env, w, e, w', target, m, w'.disk[PathFor(env.root, target)])
  {
    m :| Serves(env, w, e, target, m);
    ServedHasOwnScript(env, w, e, w', target, m);
  }

  /** The k-th event served the address, and the text is the script it put there. */
  ghost predicate ServiceAt(env: Setting, worlds: seq<World>, events: seq<Event>, target: Target, k: nat, m: Id, text: string)
    requires k < |events| < |worlds|
  {
    ServiceOf(env, worlds[k], events[k], worlds[k + 1], target, m, text)
  }

  /** The script at an address is, whole, the one its last service put there: the rules, at that moment, of the
      mailbox then at the address. */
  lemma ScriptComesFromLastService(env: Setting, worlds: seq<World>, events: seq<Event>, target: Target, k: nat, n: nat) returns (m: Id)
    requires IsRun(env, worlds, events) && k < n < |worlds| && '/' !in target.domainName
    requires IsServed(env, worlds[k], events[k], target) && Unserved(env, worlds, events, target, k + 1, n)
    ensures PathFor(env.root, target) in worlds[n].disk
    ensures ServiceAt(env, worlds, events, target, k, m, worlds[n].disk[PathFor(env.root, target)])
  {
    RunStaysSound(env, worlds, events, k);
    m := ServicePutsOwnScript(env, worlds[k], events[k], worlds[k + 1], target);
    UnservedStays(env, worlds, events, target, k + 1, n);
  }

  /** At this moment the mailbox is at the address, and its rules compile to the text. */
  ghost predicate CompiledAt(env: Setting, worlds: seq<World>, target: Target, k: nat, m: Id, text: string) {
    && k < |worlds|
    && m in worlds[k].mailboxes && worlds[k].mailboxes[m] == target
    && IsScriptOf(worlds[k].rules, m, env.options, text)
  }

  /** Whatever fails and whoever comes and goes, a script is the whole script of a rule list that a mailbox at
      its address had at an earlier or the present moment. */
  lemma ScriptsAreAlwaysWhole(env: Setting, worlds: seq<World>, events: seq<Event>, target: Target, n: nat) returns (k: nat, m: Id)
    requires IsRun(env, worlds, events) && n < |worlds| && '/' !in target.domainName
    requires PathFor(env.root, target) !in worlds[0].disk && PathFor(env.root, target) in worlds[n].disk
    ensures k <= n && CompiledAt(env, worlds, target, k, m, worlds[n].disk[PathFor(env.root, target)])
  {
    if Unserved(env, worlds, events, target, 0, n) {
      UnservedStays(env, worlds, events, target, 0, n);
      assert false;
    } else {
      k := LastService(env, worlds, events, target, 0, n);
      m := ScriptComesFromLastService(env, worlds, events, target, k, n);
      k := k + 1;
    }
  }

  ghost predicate HoldsAddress(worlds: seq<World>, m: Id, target: Target, i: nat, n: nat)
    requires n < |worlds|
  {
    forall k | i <= k <= n :: m in worlds[k].mailboxes && worlds[k].mailboxes[m] == target
  }

  lemma ServedIsHolder(env: Setting, w: World, e: Event, w': World, target: Target, m: Id, holder: Id)
    requires SoundWorld(w) && Happens(env, w, e, w') && Serves(env, w, e, target, m)
    requires holder in w.mailboxes && w.mailboxes[holder] == target
    ensures m == holder
  {
    assert w.mailboxes[holder] in w.mailboxes.Values;
    if e.Reconciling? {
      var i :| 0 <= i < |e.turns| && e.turns[i].mailbox == m && e.turns[i].target == target && Done(w.disk, env, e.turns[i]);
      assert IsTurn(w.rules, w.mailboxes, env.options, e.turns[i]);
    }
  }

  /** A mailbox that has held its address since moment i runs rules of its own, no older than i, once the address
      has been served since; until then it runs what the address had at i, a former holder's script if there was one. */
  lemma HolderRunsOwnRulesOnceServed(env: Setting, worlds: seq<World>, events: seq<Event>, target: Target, m: Id, i: nat, n: nat)
    requires IsRun(env, worlds, events) && i <= n < |worlds| && '/' !in target.domainName
    requires HoldsAddress(worlds, m, target, i, n)
    ensures Unserved(env, worlds, events, target, i, n) ==> SameFile(worlds[i].disk, worlds[n].disk, PathFor(env.root, target))
    ensures !Unserved(env, worlds, events, target, i, n) ==>
              && PathFor(env.root, target) in worlds[n].disk
              && exists k: nat :: i < k <= n && CompiledAt(env, worlds, target, k, m, worlds[n].disk[PathFor(env.root, target)])
  {
    if Unserved(env, worlds, events, target, i, n) {
      UnservedStays(env, worlds, events, target, i, n);
    } else {
      var k := LastService(env, worlds, events, target, i, n);
      var owner := ScriptComesFromLastService(env, worlds, events, target, k, n);
      RunStaysSound(env, worlds, events, k);
      ServedIsHolder(env, worlds[k], events[k], worlds[k + 1], target, owner, m);
      assert CompiledAt(env, worlds, target, k + 1, m, worlds[n].disk[PathFor(env.root, target)]);
    }
  }

  /** An address deleted and created again, the new mailbox's first script failing, keeps the former holder's
      script, though the new mailbox has no rules. */
  lemma RecreatedAddressKeepsFormerScript(env: Setting, w: World, w1: World, w2: World, former: Id, attempt: Attempt)
    requires SoundWorld(w) && former in w.mailboxes && !attempt.Succeeds()
    requires Happens(env, w, Deleted(former), w1)
    requires Happens(env, w1, Created(w.mailboxes[former], attempt), w2)
    ensures SameFile(w.disk, w2.disk, PathFor(env.root, w.mailboxes[former]))
    ensures w1.nextId in w2.mailboxes && w2.mailboxes[w1.nextId] == w.mailboxes[former] && Lists(w2.rules, w1.nextId, [])
  {
    EventKeepsSound(env, w, Deleted(former), w1);
    NewMailboxHasNoRules(w1);
    WriteIsAtomic(w1.disk, env.root, w.mailboxes[former], Script([], env.options), attempt, w.mailboxes[former]);
  }

  // ----- The writer and the reconciler -----

  class SieveWriter {
    var disk: Disk
    const root: string
    const options: Options

    constructor (root: string, options: Options)
      ensures this.root == root && this.options == options && disk == map[]
    {
      this.root, this.options, disk := root, options, map[];
    }

    function Env(): Setting {
      Setting(root, options)
    }

    /** Resolves, after a warning, when the error reads as a missing compiler. */
    method Compile(error: Option<string>) returns (ok: bool)
      ensures ok == Passes(error)
    {
      if error.None? {
        return true;
      }
      ok := IsUnavailable(error.value);
    }

    method Current(target: Target, rules: seq<Rule>, readable: bool) returns (current: bool)
      ensures current == (readable && IsCurrent(disk, PathFor(root, target), Script(rules, options)))
    {
      var file := PathFor(root, target);
      if !readable || file !in disk {
        return false;
      }
      var script := GenerateSieve(rules, options);
      current := disk[file] == script;
    }

    /** rename(2): the staged file takes the place of the script in one step. */
    method Rename(staging: string, file: string)
      requires staging in disk
      modifies this`disk
      ensures disk == (old(disk) - {staging})[file := old(disk)[staging]]
    {
      var content := disk[staging];
      disk := (disk - {staging})[file := content];
    }

    method Publish(staging: string, file: string, script: string, a: Attempt) returns (ok: bool)
      modifies this`disk
      ensures disk == Published(old(disk), staging, file, script, a)
      ensures ok == a.Succeeds()
    {
      if !a.mkdir || !a.chmod {
        return false;
      }
      if !a.stage {
        if a.partial.Some? {
          disk := disk[staging := a.partial.value];
        }
        return false;
      }
      disk := disk[staging := script];
      ok := Compile(a.verdict.Error());
      if !ok || !a.rename {
        return false;
      }
      assert disk - {staging} == old(disk) - {staging};
      Rename(staging, file);
    }

    method Write(target: Target, rules: seq<Rule>, a: Attempt) returns (ok: bool)
      modifies this`disk
      ensures disk == Written(old(disk), root, target, Script(rules, options), a)
      ensures ok == a.Succeeds()
    {
      var file := PathFor(root, target);
      var script := GenerateSieve(rules, options);
      ok := Publish(file + STAGED, file, script, a);
    }
  }

  datatype Mailbox = Mailbox(target: Target, active: bool)

  datatype Outcomes = Outcomes(readable: set<Id>, attempts: Id -> Attempt)

  ghost predicate IsTurnOf(t: Rules, mailboxes: map<Id, Mailbox>, options: Options, how: Outcomes, m: Id, turn: Turn) {
    && m in mailboxes
    && turn.mailbox == m && turn.target == mailboxes[m].target
    && turn.readable == (m in how.readable) && turn.attempt == how.attempts(m)
    && IsScriptOf(t, m, options, turn.script)
  }

  /** One turn per id, with the rules listed for it and the given outcomes. */
  ghost predicate TurnsOf(t: Rules, mailboxes: map<Id, Mailbox>, options: Options, how: Outcomes, ids: seq<Id>, turns: seq<Turn>) {
    && |turns| == |ids|
    && forall i {:trigger IsTurnOf(t, mailboxes, options, how, ids[i], turns[i])} | 0 <= i < |ids| ::
         IsTurnOf(t, mailboxes, options, how, ids[i], turns[i])
  }

  predicate ListsActive(mailboxes: map<Id, Mailbox>, all: seq<Id>) {
    && Distinct(all)
    && (forall m | m in all :: m in mailboxes && mailboxes[m].active)
    && (forall m | m in mailboxes && mailboxes[m].active :: m in all)
  }

  lemma TurnsOfMore(t: Rules, mailboxes: map<Id, Mailbox>, options: Options, how: Outcomes, ids: seq<Id>, turns: seq<Turn>, m: Id, turn: Turn)
    requires TurnsOf(t, mailboxes, options, how, ids, turns) && IsTurnOf(t, mailboxes, options, how, m, turn)
    ensures TurnsOf(t, mailboxes, options, how, ids + [m], turns + [turn])
  {
  }

  class SieveReconciler {
    var mailboxes: map<Id, Mailbox>
    const repository: RuleRepository
    const writer: SieveWriter

    constructor (mailboxes: map<Id, Mailbox>, repository: RuleRepository, writer: SieveWriter)
      ensures this.mailboxes == mailboxes && this.repository == repository && this.writer == writer
    {
      this.mailboxes, this.repository, this.writer := mailboxes, repository, writer;
    }

    /** The rows come in no particular order. */
    method ListAllActive() returns (all: seq<Id>)
      ensures ListsActive(mailboxes, all)
    {
      all := [];
      var todo := mailboxes.Keys;
      while todo != {}
        invariant todo <= mailboxes.Keys
        invariant Distinct(all) && forall m :: m in all <==> m in mailboxes.Keys - todo && mailboxes[m].active
        decreases |todo|
      {
        var m :| m in todo;
        if mailboxes[m].active {
          DistinctLast(all, m);
          all := all + [m];
        }
        todo := todo - {m};
      }
    }

    /** One turn of the loop; the row's rules are read now. */
    method ReconcileOne(m: Id, how: Outcomes) returns (wrote: bool, ghost turn: Turn)
      requires repository.Valid() && m in mailboxes
      modifies writer`disk
      ensures IsTurnOf(repository.rows, mailboxes, writer.options, how, m, turn)
      ensures writer.disk == AfterTurn(old(writer.disk), writer.Env(), turn)
      ensures wrote == (!Skips(old(writer.disk), writer.Env(), turn) && turn.attempt.Succeeds())
    {
      var target := mailboxes[m].target;
      var rules := repository.ListFor(m);
      turn := Turn(m, target, Script(rules, writer.options), m in how.readable, how.attempts(m));
      var current := writer.Current(target, rules, m in how.readable);
      if current {
        return false, turn;
      }
      wrote := writer.Write(target, rules, how.attempts(m));
    }

    /** The same, adding to what the turns before have done. */
    method ReconcileNext(m: Id, how: Outcomes, written: nat, ghost ids: seq<Id>, ghost turns: seq<Turn>, ghost start: Disk)
      returns (more: nat, ghost turn: Turn)
      requires repository.Valid() && m in mailboxes
      requires Reached(repository.rows, mailboxes, writer.Env(), how, ids, turns, start, writer.disk, written)
      modifies writer`disk
      ensures Reached(repository.rows, mailboxes, writer.Env(), how, ids + [m], turns + [turn], start, writer.disk, more)
    {
      ghost var before := writer.disk;
      var wrote;
      wrote, turn := ReconcileOne(m, how);
      more := if wrote then written + 1 else written;
      OneMoreTurn(start, writer.Env(), turns, before, written, turn);
      ReachedNext(repository.rows, mailboxes, writer.Env(), how, ids, m, turns, turn, start, writer.disk, more);
    }

    method ReconcileEach(all: seq<Id>, how: Outcomes) returns (written: nat, ghost turns: seq<Turn>)
      requires repository.Valid() && forall m | m in all :: m in mailboxes
      modifies writer`disk
      ensures Reached(repository.rows, mailboxes, writer.Env(), how, all, turns, old(writer.disk), writer.disk, written)
    {
      written, turns := 0, [];
      for i := 0 to |all|
        invariant Reached(repository.rows, mailboxes, writer.Env(), how, all[..i], turns, old(writer.disk), writer.disk, written)
      {
        ghost var turn;
        written, turn := ReconcileNext(all[i], how, written, all[..i], turns, old(writer.disk));
        assert all[..i + 1] == all[..i] + [all[i]];
        turns := turns + [turn];
      }
      assert all[..|all|] == all;
    }

    /** The loop over the active mailboxes, which goes on when a write fails. */
    method Reconcile(how: Outcomes) returns (written: nat)
      requires repository.Valid()
      modifies writer`disk
      ensures exists all, turns ::
                && ListsActive(mailboxes, all)
                && Reached(repository.rows, mailboxes, writer.Env(), how, all, turns, old(writer.disk), writer.disk, written)
    {
      var all := ListAllActive();
      ghost var turns;
      written, turns := ReconcileEach(all, how);
    }
  }

  ghost predicate Progress(start: Disk, env: Setting, turns: seq<Turn>, disk: Disk, written: nat) {
    disk == Reconciled(start, env, turns) && written == WritesOf(start, env, turns)
  }

  lemma OneMoreTurn(start: Disk, env: Setting, turns: seq<Turn>, disk: Disk, written: nat, turn: Turn)
    requires Progress(start, env, turns, disk, written)
    ensures Progress(start, env, turns + [turn], AfterTurn(disk, env, turn),
                     written + if Skips(disk, env, turn) || !turn.attempt.Succeeds() then 0 else 1)
  {
    assert (turns + [turn])[..|turns|] == turns;
  }

  /** Where the loop stands once these ids have had their turns: each with the script of its rules, the disk and
      the count as specified. */
  ghost predicate Reached(t: Rules, mailboxes: map<Id, Mailbox>, env: Setting, how: Outcomes, ids: seq<Id>, turns: seq<Turn>,
                          start: Disk, disk: Disk, written: nat) {
    TurnsOf(t, mailboxes, env.options, how, ids, turns) && Progress(start, env, turns, disk, written)
  }

  lemma ReachedNext(t: Rules, mailboxes: map<Id, Mailbox>, env: Setting, how: Outcomes, ids: seq<Id>, m: Id, turns: seq<Turn>, turn: Turn,
                    start: Disk, disk: Disk, written: nat)
    requires TurnsOf(t, mailboxes, env.options, how, ids, turns) && IsTurnOf(t, mailboxes, env.options, how, m, turn)
    requires Progress(start, env, turns + [turn], disk, written)
    ensures Reached(t, mailboxes, env, how, ids + [m], turns + [turn], start, disk, written)
  {
    TurnsOfMore(t, mailboxes, env.options, how, ids, turns, m, turn);
  }
}
