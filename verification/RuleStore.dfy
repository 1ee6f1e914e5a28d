/** The folder_rule table of src/rules/rule.repository.ts and the requests of src/rules/rule.service.ts. */
module RuleStore {
  import opened Prelude
  import opened SieveCompiler

  type Rules = map<Id, Rule>

  /** The body of a create or update request; the position is not part of it. */
  datatype RuleInput = RuleInput(
    active: bool,
    conditionField: Field,
    conditionOperator: Operator,
    conditionValue: string,
    action: Action,
    targetFolder: Option<string>)

  function RuleOf(id: Id, mailbox: Id, position: int, input: RuleInput): Rule {
    Rule(id, mailbox, position, input.active, input.conditionField, input.conditionOperator,
         input.conditionValue, input.action, input.targetFolder)
  }

  predicate Owned(t: Rules, mailbox: Id, id: Id) {
    id in t && t[id].mailboxId == mailbox
  }

  /** An answer of listFor: each rule of the mailbox once, by ascending position. */
  ghost predicate Lists(t: Rules, mailbox: Id, rules: seq<Rule>) {
    && Ordered(rules)
    && Distinct(rules)
    && forall r :: r in rules <==> Owned(t, mailbox, r.id) && t[r.id] == r
  }

  /** Positions of a mailbox are distinct and at least 1. */
  ghost predicate PositionsKept(t: Rules) {
    && (forall id | id in t :: t[id].id == id && t[id].position >= 1)
    && (forall i, j | i in t && j in t && t[i].mailboxId == t[j].mailboxId && t[i].position == t[j].position :: i == j)
  }

  /** Row ids are random and never repeat; here they are numbers below the next one. */
  ghost predicate Sound(t: Rules, next: Id) {
    PositionsKept(t) && forall id | id in t :: id < next
  }

  // ----- Requests -----

  datatype Request =
    | Create(input: RuleInput)
    | Update(id: Id, input: RuleInput)
    | Reorder(ids: seq<Id>)
    | Delete(id: Id)

  datatype Reply = Ok | NotFound | BadRequest

  /** nextPosition: one past the highest position, or 1. */
  ghost predicate IsNextPosition(t: Rules, mailbox: Id, position: int) {
    && (forall id | Owned(t, mailbox, id) :: t[id].position < position)
    && if exists id :: Owned(t, mailbox, id)
       then exists id :: Owned(t, mailbox, id) && t[id].position == position - 1
       else position == 1
  }

  /** The number of the last place an id has in the list, 0 when it has none. */
  function LastPlace(ids: seq<Id>, id: Id): (place: nat)
    ensures place <= |ids|
    ensures place == 0 <==> id !in ids
    ensures place > 0 ==> ids[place - 1] == id
  {
    if ids == [] then 0
    else if ids[|ids| - 1] == id then |ids|
    else LastPlace(ids[..|ids| - 1], id)
  }

  /** The listed rules numbered by their last place among those placed so far. */
  function Placed(t: Rules, mailbox: Id, ids: seq<Id>, placed: seq<Id>): Rules {
    map id | id in t :: if t[id].mailboxId == mailbox && id in ids then t[id].(position := LastPlace(placed, id)) else t[id]
  }

  function Reordered(t: Rules, mailbox: Id, ids: seq<Id>): Rules {
    Placed(t, mailbox, ids, ids)
  }

  ghost predicate ListsExactly(t: Rules, mailbox: Id, ids: seq<Id>) {
    Distinct(ids) && forall id :: id in ids <==> Owned(t, mailbox, id)
  }

  /** The checks of reorder against the listed rules. */
  predicate Complete(existing: seq<Rule>, ids: seq<Id>) {
    && |ids| == |existing|
    && |SetOf(ids)| == |ids|
    && forall rule | rule in existing :: rule.id in ids
  }

  // ----- The checks of a reorder -----

  function IdsOf(rules: seq<Rule>): (ids: seq<Id>)
    ensures |ids| == |rules| && forall i | 0 <= i < |rules| :: ids[i] == rules[i].id
  {
    seq(|rules|, i requires 0 <= i < |rules| => rules[i].id)
  }

  lemma ListedIds(t: Rules, mailbox: Id, existing: seq<Rule>)
    requires PositionsKept(t) && Lists(t, mailbox, existing)
    ensures Distinct(IdsOf(existing))
    ensures forall id :: id in IdsOf(existing) <==> Owned(t, mailbox, id)
  {
    var ids := IdsOf(existing);
    forall i, j | 0 <= i < j < |ids|
      ensures ids[i] != ids[j]
    {
      assert existing[i] in existing && existing[j] in existing;
    }
    forall id
      ensures id in ids <==> Owned(t, mailbox, id)
    {
      if id in ids {
        var i :| 0 <= i < |ids| && ids[i] == id;
        assert existing[i] in existing;
      }
      if Owned(t, mailbox, id) {
        assert t[id].id == id && t[id] in existing;
        var i :| 0 <= i < |existing| && existing[i] == t[id];
        assert ids[i] == id;
      }
    }
  }

  /** The three checks accept exactly the permutations of the mailbox's rules. */
  lemma ChecksAcceptPermutations(t: Rules, mailbox: Id, existing: seq<Rule>, ids: seq<Id>)
    requires PositionsKept(t) && Lists(t, mailbox, existing)
    ensures Complete(existing, ids) <==> ListsExactly(t, mailbox, ids)
  {
    var own := IdsOf(existing);
    var a, b := SetOf(own), SetOf(ids);
    ListedIds(t, mailbox, existing);
    SetSize(own);
    SetSize(ids);
    if Complete(existing, ids) {
      assert a <= b by {
        forall id | id in own
          ensures id in ids
        {
          var i :| 0 <= i < |own| && own[i] == id;
          assert existing[i] in existing;
        }
      }
      SubsetOfSameSize(a, b);
      forall id
        ensures id in ids <==> Owned(t, mailbox, id)
      {
        assert id in a <==> id in own;
        assert id in b <==> id in ids;
      }
    }
    if ListsExactly(t, mailbox, ids) {
      assert a == b;
      forall rule | rule in existing
        ensures rule.id in ids
      {
        assert Owned(t, mailbox, rule.id);
      }
    }
  }

  // ----- Effects -----

  /** What a request may leave behind and answer. */
  ghost predicate Step(t: Rules, next: Id, mailbox: Id, request: Request, t': Rules, reply: Reply) {
    match request
    case Create(input) =>
      reply.Ok? && exists p: int :: IsNextPosition(t, mailbox, p) && t' == t[next := RuleOf(next, mailbox, p, input)]
    case Update(id, input) =>
      if Owned(t, mailbox, id) then reply.Ok? && t' == t[id := RuleOf(id, mailbox, t[id].position, input)]
      else reply.NotFound? && t' == t
    case Reorder(ids) =>
      if ListsExactly(t, mailbox, ids) then reply.Ok? && t' == Reordered(t, mailbox, ids)
      else reply.BadRequest? && t' == t
    case Delete(id) =>
      if Owned(t, mailbox, id) then reply.Ok? && t' == t - {id}
      else reply.NotFound? && t' == t
  }

  lemma NextPositionIsPositive(t: Rules, mailbox: Id, position: int)
    requires PositionsKept(t) && IsNextPosition(t, mailbox, position)
    ensures position >= 1
  {
  }

  lemma ReorderKeepsPositions(t: Rules, mailbox: Id, ids: seq<Id>)
    requires PositionsKept(t) && ListsExactly(t, mailbox, ids)
    ensures PositionsKept(Reordered(t, mailbox, ids))
  {
    var t' := Reordered(t, mailbox, ids);
    forall i, j | i in t' && j in t' && t'[i].mailboxId == t'[j].mailboxId && t'[i].position == t'[j].position
      ensures i == j
    {
      if t[i].mailboxId == mailbox {
        assert i in ids && j in ids;
        assert ids[LastPlace(ids, i) - 1] == i && ids[LastPlace(ids, j) - 1] == j;
      }
    }
  }

  lemma CreateKeepsPositions(t: Rules, next: Id, mailbox: Id, position: int, input: RuleInput)
    requires Sound(t, next) && IsNextPosition(t, mailbox, position)
    ensures Sound(t[next := RuleOf(next, mailbox, position, input)], next + 1)
  {
    NextPositionIsPositive(t, mailbox, position);
    forall i | i in t && t[i].mailboxId == mailbox
      ensures t[i].position < position
    {
      assert Owned(t, mailbox, i);
    }
  }

  lemma UpdateKeepsPositions(t: Rules, next: Id, mailbox: Id, id: Id, input: RuleInput)
    requires Sound(t, next) && Owned(t, mailbox, id)
    ensures Sound(t[id := RuleOf(id, mailbox, t[id].position, input)], next)
  {
  }

  lemma StepKeepsPositions(t: Rules, next: Id, mailbox: Id, request: Request, t': Rules, reply: Reply)
    requires Sound(t, next) && Step(t, next, mailbox, request, t', reply)
    ensures Sound(t', next + 1)
  {
    match request
    case Create(input) =>
      var p :| IsNextPosition(t, mailbox, p) && t' == t[next := RuleOf(next, mailbox, p, input)];
      CreateKeepsPositions(t, next, mailbox, p, input);
    case Update(id, input) =>
      if Owned(t, mailbox, id) {
        UpdateKeepsPositions(t, next, mailbox, id, input);
      }
    case Reorder(ids) =>
      if ListsExactly(t, mailbox, ids) {
        ReorderKeepsPositions(t, mailbox, ids);
      }
    case Delete(id) =>
  }

  lemma PlaceOne(t: Rules, mailbox: Id, ids: seq<Id>, placed: seq<Id>, id: Id)
    requires id in ids
    ensures var before := Placed(t, mailbox, ids, placed);
            var after := if Owned(t, mailbox, id) then before[id := before[id].(position := |placed| + 1)] else before;
            Placed(t, mailbox, ids, placed + [id]) == after
  {
    assert (placed + [id])[..|placed|] == placed;
  }

  /** One request of a run: on which mailbox, what, and how it was answered. */
  datatype Call = Call(mailbox: Id, request: Request, reply: Reply)

  ghost predicate Answered(t: Rules, next: Id, call: Call, t': Rules) {
    Step(t, next, call.mailbox, call.request, t', call.reply)
  }

  ghost predicate IsRun(tables: seq<Rules>, calls: seq<Call>, next: Id) {
    && |tables| == |calls| + 1
    && forall i | 0 <= i < |calls| :: Answered(tables[i], next + i, calls[i], tables[i + 1])
  }

  /** Over any run of requests on any mailboxes, positions stay distinct per mailbox and at least 1. */
  lemma {:induction false} PositionsKeptEver(tables: seq<Rules>, calls: seq<Call>, next: Id, n: nat)
    requires IsRun(tables, calls, next) && Sound(tables[0], next) && n < |tables|
    ensures Sound(tables[n], next + n)
  {
    if n > 0 {
      PositionsKeptEver(tables, calls, next, n - 1);
      var c := calls[n - 1];
      assert Answered(tables[n - 1], next + (n - 1), c, tables[n]);
      StepKeepsPositions(tables[n - 1], next + (n - 1), c.mailbox, c.request, tables[n], c.reply);
    }
  }

  // ----- What a request does to the table -----

  /** The columns a request sets. */
  predicate Carries(rule: Rule, input: RuleInput) {
    && rule.active == input.active
    && rule.conditionField == input.conditionField
    && rule.conditionOperator == input.conditionOperator
    && rule.conditionValue == input.conditionValue
    && rule.action == input.action
    && rule.targetFolder == input.targetFolder
  }

  /** A request touches no rule of another mailbox. */
  lemma MailboxesAreIsolated(t: Rules, next: Id, mailbox: Id, request: Request, t': Rules, reply: Reply, id: Id)
    requires Sound(t, next) && Step(t, next, mailbox, request, t', reply)
    requires id in t && t[id].mailboxId != mailbox
    ensures id in t' && t'[id] == t[id]
  {
  }

  /** A create adds the rule as given at the end of its mailbox's list and changes no other. */
  lemma CreatedRule(t: Rules, next: Id, mailbox: Id, input: RuleInput, t': Rules, reply: Reply)
    requires Sound(t, next) && Step(t, next, mailbox, Create(input), t', reply)
    ensures reply.Ok? && next in t' && next !in t
    ensures forall id :: id in t' <==> id in t || id == next
    ensures forall id | id in t :: t'[id] == t[id]
    ensures t'[next].id == next && t'[next].mailboxId == mailbox && Carries(t'[next], input)
    ensures forall id | id in t && t[id].mailboxId == mailbox :: t[id].position < t'[next].position
    ensures t'[next].position == 1 || exists id :: id in t && t[id].mailboxId == mailbox && t[id].position + 1 == t'[next].position
  {
    var p :| IsNextPosition(t, mailbox, p) && t' == t[next := RuleOf(next, mailbox, p, input)];
    forall id | id in t && t[id].mailboxId == mailbox
      ensures t[id].position < p
    {
      assert Owned(t, mailbox, id);
    }
    if id :| Owned(t, mailbox, id) && t[id].position == p - 1 {
      assert t[id].position + 1 == p;
    }
  }

  /** An update rewrites a rule of the mailbox as given, at the position it has, and no other. */
  lemma UpdatedRule(t: Rules, next: Id, mailbox: Id, id: Id, input: RuleInput, t': Rules, reply: Reply)
    requires Sound(t, next) && Step(t, next, mailbox, Update(id, input), t', reply)
    ensures reply.Ok? || reply.NotFound?
    ensures reply.Ok? <==> id in t && t[id].mailboxId == mailbox
    ensures !reply.Ok? ==> t' == t
    ensures reply.Ok? ==>
              && (forall i :: i in t' <==> i in t)
              && (forall i | i in t && i != id :: t'[i] == t[i])
              && t'[id].id == id && t'[id].mailboxId == mailbox && t'[id].position == t[id].position && Carries(t'[id], input)
  {
  }

  /** A delete takes a rule of the mailbox away and no other. */
  lemma DeletedRule(t: Rules, next: Id, mailbox: Id, id: Id, t': Rules, reply: Reply)
    requires Step(t, next, mailbox, Delete(id), t', reply)
    ensures reply.Ok? || reply.NotFound?
    ensures reply.Ok? <==> id in t && t[id].mailboxId == mailbox
    ensures forall i :: i in t' <==> i in t && !(reply.Ok? && i == id)
    ensures forall i | i in t' :: t'[i] == t[i]
  {
  }

  /** A reorder is accepted just when it lists each rule of the mailbox once. */
  lemma ReorderedExactly(t: Rules, next: Id, mailbox: Id, ids: seq<Id>, t': Rules, reply: Reply)
    requires Step(t, next, mailbox, Reorder(ids), t', reply)
    ensures reply.Ok? || reply.BadRequest?
    ensures reply.Ok? <==> (forall i, j | 0 <= i < j < |ids| :: ids[i] != ids[j]) && forall id :: id in ids <==> id in t && t[id].mailboxId == mailbox
    ensures !reply.Ok? ==> t' == t
  {
  }

  // ----- What a reorder shows -----

  /** Strictly ascending numbers from 1..n, n of them, are 1..n. */
  lemma {:induction false} AscendingFillsRange(rules: seq<Rule>, i: nat)
    requires i < |rules|
    requires forall k | 0 <= k < |rules| :: 1 <= rules[k].position <= |rules|
    requires forall j, k | 0 <= j < k < |rules| :: rules[j].position < rules[k].position
    ensures rules[i].position == i + 1
  {
    AtLeastItsPlace(rules, i);
    AtMostItsPlace(rules, i);
  }

  lemma {:induction false} AtLeastItsPlace(rules: seq<Rule>, i: nat)
    requires i < |rules|
    requires forall k | 0 <= k < |rules| :: 1 <= rules[k].position
    requires forall j, k | 0 <= j < k < |rules| :: rules[j].position < rules[k].position
    ensures rules[i].position >= i + 1
  {
    if i > 0 {
      AtLeastItsPlace(rules, i - 1);
      assert rules[i - 1].position < rules[i].position;
    }
  }

  lemma {:induction false} AtMostItsPlace(rules: seq<Rule>, i: nat)
    requires i < |rules|
    requires forall k | 0 <= k < |rules| :: rules[k].position <= |rules|
    requires forall j, k | 0 <= j < k < |rules| :: rules[j].position < rules[k].position
    ensures rules[i].position <= i + 1
    decreases |rules| - i
  {
    if i + 1 < |rules| {
      AtMostItsPlace(rules, i + 1);
      assert rules[i].position < rules[i + 1].position;
    }
  }

  lemma ListedAscend(t: Rules, mailbox: Id, rules: seq<Rule>)
    requires PositionsKept(t) && Lists(t, mailbox, rules)
    ensures forall i, j | 0 <= i < j < |rules| :: rules[i].position < rules[j].position
    ensures DistinctPositions(rules)
  {
    forall i, j | 0 <= i < j < |rules|
      ensures rules[i].position < rules[j].position
    {
      assert rules[i] in rules && rules[j] in rules;
    }
  }

  /** After an accepted reorder, listFor shows the requested order, numbered from 1, and nothing else changed. */
  lemma ReorderShowsRequestedOrder(t: Rules, mailbox: Id, ids: seq<Id>, rules: seq<Rule>)
    requires PositionsKept(t) && ListsExactly(t, mailbox, ids)
    requires Lists(Reordered(t, mailbox, ids), mailbox, rules)
    ensures |rules| == |ids|
    ensures forall i | 0 <= i < |ids| :: Owned(t, mailbox, ids[i]) && rules[i] == t[ids[i]].(position := i + 1)
    ensures forall id | id in t && t[id].mailboxId != mailbox :: Reordered(t, mailbox, ids)[id] == t[id]
  {
    var t' := Reordered(t, mailbox, ids);
    ReorderKeepsPositions(t, mailbox, ids);
    ListedIds(t', mailbox, rules);
    assert forall id :: Owned(t', mailbox, id) <==> Owned(t, mailbox, id);
    SameElementsSameLength(ids, IdsOf(rules));
    ListedAscend(t', mailbox, rules);
    forall k | 0 <= k < |rules|
      ensures 1 <= rules[k].position <= |rules|
      ensures rules[k].id in ids && rules[k].position == LastPlace(ids, rules[k].id)
      ensures Owned(t, mailbox, rules[k].id) && rules[k] == t[rules[k].id].(position := LastPlace(ids, rules[k].id))
    {
      assert rules[k] in rules;
      assert Owned(t', mailbox, rules[k].id);
    }
    forall i | 0 <= i < |ids|
      ensures Owned(t, mailbox, ids[i]) && rules[i] == t[ids[i]].(position := i + 1)
    {
      AscendingFillsRange(rules, i);
      assert ids[LastPlace(ids, rules[i].id) - 1] == rules[i].id;
    }
  }

  /** Any two answers of listFor are the same list, so they compile to the same script. */
  lemma {:induction false} ListIsUnique(t: Rules, mailbox: Id, a: seq<Rule>, b: seq<Rule>)
    requires PositionsKept(t) && Lists(t, mailbox, a) && Lists(t, mailbox, b)
    ensures a == b
  {
    ListedAscend(t, mailbox, a);
    ListedAscend(t, mailbox, b);
    forall p
      ensures At(a, p) == At(b, p)
    {
      AtDistinct(a, p);
      AtDistinct(b, p);
      forall r
        ensures r in At(a, p) <==> r in At(b, p)
      {
        AtMember(a, r);
        AtMember(b, r);
      }
      SameShortSequence(At(a, p), At(b, p));
    }
    StableSortIsUnique(a, b);
  }

  // ----- The repository -----

  class RuleRepository {
    var rows: Rules
    var nextId: Id

    ghost predicate Valid()
      reads this
    {
      Sound(rows, nextId)
    }

    constructor ()
      ensures Valid() && rows == map[]
    {
      rows, nextId := map[], 0;
    }

    /** SELECT ... ORDER BY position. */
    method ListFor(mailbox: Id) returns (rules: seq<Rule>)
      requires Valid()
      ensures Lists(rows, mailbox, rules)
    {
      rules := [];
      var todo := rows.Keys;
      while todo != {}
        invariant todo <= rows.Keys
        invariant Ordered(rules) && Distinct(rules)
        invariant forall r :: r in rules <==> r.id in rows.Keys - todo && Owned(rows, mailbox, r.id) && rows[r.id] == r
        decreases |todo|
      {
        var id :| id in todo;
        if rows[id].mailboxId == mailbox {
          InsertOrdered(rows[id], rules);
          InsertMembers(rows[id], rules);
          rules := InsertByPosition(rows[id], rules);
        }
        todo := todo - {id};
      }
    }

    /** SELECT max(position). */
    method NextPosition(mailbox: Id) returns (position: int)
      ensures IsNextPosition(rows, mailbox, position)
    {
      var highest: Option<int> := None;
      var todo := rows.Keys;
      while todo != {}
        invariant todo <= rows.Keys
        invariant forall id | id in rows.Keys - todo && Owned(rows, mailbox, id) :: highest.Some? && rows[id].position <= highest.value
        invariant highest.Some? ==> exists id :: Owned(rows, mailbox, id) && rows[id].position == highest.value
        decreases |todo|
      {
        var id :| id in todo;
        todo := todo - {id};
        if rows[id].mailboxId == mailbox && (highest.None? || rows[id].position > highest.value) {
          assert Owned(rows, mailbox, id);
          highest := Some(rows[id].position);
        }
      }
      position := (if highest.Some? then highest.value else 0) + 1;
    }

    /** The transaction: every listed rule to 0, then each to its place. */
    method ReorderRows(mailbox: Id, ids: seq<Id>)
      modifies this`rows
      ensures rows == Reordered(old(rows), mailbox, ids)
    {
      rows := map id | id in rows :: if rows[id].mailboxId == mailbox && id in ids then rows[id].(position := 0) else rows[id];
      for i := 0 to |ids|
        invariant rows == Placed(old(rows), mailbox, ids, ids[..i])
      {
        PlaceOne(old(rows), mailbox, ids, ids[..i], ids[i]);
        assert ids[..i + 1] == ids[..i] + [ids[i]];
        var id := ids[i];
        if id in rows && rows[id].mailboxId == mailbox {
          rows := rows[id := rows[id].(position := i + 1)];
        }
      }
      assert ids[..|ids|] == ids;
    }

    method CreateRule(mailbox: Id, input: RuleInput) returns (reply: Reply)
      requires Valid()
      modifies this
      ensures Valid() && nextId == old(nextId) + 1
      ensures Step(old(rows), old(nextId), mailbox, Create(input), rows, reply)
    {
      var position := NextPosition(mailbox);
      rows := rows[nextId := RuleOf(nextId, mailbox, position, input)];
      nextId := nextId + 1;
      reply := Ok;
      StepKeepsPositions(old(rows), old(nextId), mailbox, Create(input), rows, reply);
    }

    method UpdateRule(mailbox: Id, id: Id, input: RuleInput) returns (reply: Reply)
      requires Valid()
      modifies this`rows
      ensures Valid()
      ensures Step(old(rows), old(nextId), mailbox, Update(id, input), rows, reply)
    {
      if id !in rows || rows[id].mailboxId != mailbox {
        return NotFound;
      }
      rows := rows[id := RuleOf(id, mailbox, rows[id].position, input)];
      reply := Ok;
    }

    method Reorder(mailbox: Id, ids: seq<Id>) returns (reply: Reply)
      requires Valid()
      modifies this`rows
      ensures Valid()
      ensures Step(old(rows), old(nextId), mailbox, Request.Reorder(ids), rows, reply)
    {
      var existing := ListFor(mailbox);
      ChecksAcceptPermutations(rows, mailbox, existing, ids);
      if |ids| != |existing| || |SetOf(ids)| != |ids| || exists rule | rule in existing :: rule.id !in ids {
        return BadRequest;
      }
      ReorderKeepsPositions(rows, mailbox, ids);
      ReorderRows(mailbox, ids);
      reply := Ok;
    }

    method DeleteRule(mailbox: Id, id: Id) returns (reply: Reply)
      requires Valid()
      modifies this`rows
      ensures Valid()
      ensures Step(old(rows), old(nextId), mailbox, Delete(id), rows, reply)
    {
      if id !in rows || rows[id].mailboxId != mailbox {
        return NotFound;
      }
      rows := rows - {id};
      reply := Ok;
    }
  }

  lemma {:induction false} InsertMembers(rule: Rule, sorted: seq<Rule>)
    requires Distinct(sorted) && rule !in sorted
    ensures var inserted := InsertByPosition(rule, sorted);
            Distinct(inserted) && forall r :: r in inserted <==> r == rule || r in sorted
  {
    var inserted := InsertByPosition(rule, sorted);
    if sorted != [] && rule.position > sorted[0].position {
      assert sorted == [sorted[0]] + sorted[1..];
      InsertMembers(rule, sorted[1..]);
      assert inserted == [sorted[0]] + InsertByPosition(rule, sorted[1..]);
      assert sorted[0] !in sorted[1..];
    }
  }
}
