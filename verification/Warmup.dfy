/** The warmup curve and the daily send counter: src/warmup/curve.ts and src/warmup/warmup.service.ts. */
module Warmup {
  import opened Prelude

  // ----- The curve -----

  const WEEKLY_TARGETS: seq<nat> := [20, 50, 100, 200, 400]

  /** No cap at all is None. */
  function DailyCapFor(days: int): Option<nat> {
    if days < 0 then Some(WEEKLY_TARGETS[0])
    else if days / 7 < |WEEKLY_TARGETS| then Some(WEEKLY_TARGETS[days / 7])
    else None
  }

  predicate Within(n: nat, cap: Option<nat>) {
    cap.None? || n <= cap.value
  }

  predicate AtMost(a: Option<nat>, b: Option<nat>) {
    b.None? || (a.Some? && a.value <= b.value)
  }

  /** The curve never goes down. */
  lemma CurveIsMonotone(a: int, b: int)
    requires a <= b
    ensures AtMost(DailyCapFor(a), DailyCapFor(b))
  {
    if a >= 0 {
      assert a / 7 <= b / 7;
    }
  }

  const DAY := 86_400_000

  /** The UTC calendar day of a time in milliseconds. */
  function DayOf(time: nat): nat {
    time / DAY
  }

  function DaysSince(first: Option<nat>, now: nat): int {
    if first.None? then 0 else (now - first.value) / DAY
  }

  /** Whole days elapsed never exceed the number of calendar days begun since. */
  lemma ElapsedAtMostCalendar(since: nat, start: nat, now: nat)
    requires start <= since
    ensures (now - since) / DAY <= DayOf(now) - DayOf(start)
  {
  }

  /** The caps of the five weeks after the first verification, none from then on, and the first week's before it. */
  lemma CapByTheClock(first: nat, now: nat)
    ensures var cap := DailyCapFor(DaysSince(Some(first), now));
            && (now < first + 7 * DAY ==> cap == Some(20))
            && (first + 7 * DAY <= now < first + 14 * DAY ==> cap == Some(50))
            && (first + 14 * DAY <= now < first + 21 * DAY ==> cap == Some(100))
            && (first + 21 * DAY <= now < first + 28 * DAY ==> cap == Some(200))
            && (first + 28 * DAY <= now < first + 35 * DAY ==> cap == Some(400))
            && (first + 35 * DAY <= now ==> cap == None)
    ensures DailyCapFor(DaysSince(None, now)) == Some(20)
  {
  }

  // ----- The tables -----

  /** A verified domain: its account and when it was verified. */
  datatype Verified = Verified(account: Id, at: nat)

  type Domains = map<Id, Verified>

  datatype Slot = Slot(account: Id, day: nat)

  type Counters = map<Slot, nat>

  function Count(counters: Counters, slot: Slot): nat {
    if slot in counters then counters[slot] else 0
  }

  ghost predicate IsEarliest(domains: Domains, account: Id, first: Option<nat>) {
    && (first.Some? ==> exists d :: d in domains && domains[d] == Verified(account, first.value))
    && forall d | d in domains && domains[d].account == account :: first.Some? && first.value <= domains[d].at
  }

  /** INSERT ... ON CONFLICT DO UPDATE ... WHERE sent < cap RETURNING sent; a refusal returns no row. */
  function Upserted(counters: Counters, slot: Slot, cap: Option<nat>): (Counters, Option<nat>) {
    if slot !in counters then (counters[slot := 1], Some(1))
    else if cap.None? || counters[slot] < cap.value then (counters[slot := counters[slot] + 1], Some(counters[slot] + 1))
    else (counters, None)
  }

  // ----- Many clients -----

  /** Where a request for an allowance stands; each arrow between phases is one separate step. */
  datatype Phase =
    | Queried(account: Id, first: Option<nat>)
    | Capped(account: Id, cap: Option<nat>)
    | Dated(slot: Slot, cap: Option<nat>)
    | Granted(slot: Slot)

  datatype Grant = Grant(slot: Slot, value: nat, cap: Option<nat>)

  /** `clients` holds the requests under way. `grants` and `submitted` record the successes and the sends in order. */
  datatype World = World(
    now: nat,
    domains: Domains,
    counters: Counters,
    clients: map<Id, Phase>,
    grants: seq<Grant>,
    submitted: seq<Slot>)

  datatype Step =
    | Tick(now: nat)
    | Verify(domain: Id, account: Id)
    | DeleteDomain(domain: Id)
    | Query(client: Id, account: Id, first: Option<nat>)
    | ReadCap(client: Id)
    | ReadDate(client: Id)
    | Consume(client: Id)
    | Submit(client: Id)
    | Abandon(client: Id)

  ghost predicate Enabled(w: World, step: Step) {
    match step
    case Tick(now) => now >= w.now
    case Verify(_, _) => true
    case DeleteDomain(_) => true
    case Query(c, account, first) => c !in w.clients && IsEarliest(w.domains, account, first)
    case ReadCap(c) => c in w.clients && w.clients[c].Queried?
    case ReadDate(c) => c in w.clients && w.clients[c].Capped?
    case Consume(c) => c in w.clients && w.clients[c].Dated?
    case Submit(c) => c in w.clients && w.clients[c].Granted?
    case Abandon(c) => c in w.clients
  }

  function After(w: World, step: Step): World
    requires Enabled(w, step)
  {
    match step
    case Tick(now) => w.(now := now)
    case Verify(domain, account) => w.(domains := w.domains[domain := Verified(account, w.now)])
    case DeleteDomain(domain) => w.(domains := w.domains - {domain})
    case Query(c, account, first) => w.(clients := w.clients[c := Queried(account, first)])
    case ReadCap(c) =>
      var p := w.clients[c];
      w.(clients := w.clients[c := Capped(p.account, DailyCapFor(DaysSince(p.first, w.now)))])
    case ReadDate(c) =>
      var p := w.clients[c];
      w.(clients := w.clients[c := Dated(Slot(p.account, DayOf(w.now)), p.cap)])
    case Consume(c) =>
      var p := w.clients[c];
      var (counters, answer) := Upserted(w.counters, p.slot, p.cap);
      if answer.None? then w.(clients := w.clients - {c})
      else w.(counters := counters,
              clients := w.clients[c := Granted(p.slot)],
              grants := w.grants + [Grant(p.slot, answer.value, p.cap)])
    case Submit(c) => w.(clients := w.clients - {c}, submitted := w.submitted + [w.clients[c].slot])
    case Abandon(c) => w.(clients := w.clients - {c})
  }

  /** What is read as the first verification is one of the account, and none of the account's is earlier. */
  lemma EarliestExactly(domains: Domains, account: Id, first: Option<nat>)
    requires IsEarliest(domains, account, first)
    ensures first.None? <==> forall d | d in domains :: domains[d].account != account
    ensures first.Some? ==> exists d :: d in domains && domains[d].account == account && domains[d].at == first.value
    ensures first.Some? ==> forall d | d in domains && domains[d].account == account :: first.value <= domains[d].at
  {
    if first.Some? {
      var d :| d in domains && domains[d] == Verified(account, first.value);
    }
  }

  /** The world moves on and clients proceed and give up at any time, each at its own pace. */
  lemma AnyoneMayStep(w: World, c: Id, account: Id, later: nat, first: Option<nat>)
    ensures Enabled(w, Tick(w.now + later)) && Enabled(w, Verify(c, account)) && Enabled(w, DeleteDomain(c))
    ensures c !in w.clients && IsEarliest(w.domains, account, first) ==> Enabled(w, Query(c, account, first))
    ensures c in w.clients ==>
              && Enabled(w, Abandon(c))
              && Enabled(w, match w.clients[c]
                            case Queried(_, _) => ReadCap(c)
                            case Capped(_, _) => ReadDate(c)
                            case Dated(_, _) => Consume(c)
                            case Granted(_) => Submit(c))
  {
  }

  ghost predicate IsRun(worlds: seq<World>, steps: seq<Step>) {
    && |worlds| == |steps| + 1
    && worlds[0].counters == map[] && worlds[0].clients == map[] && worlds[0].domains == map[]
    && worlds[0].grants == [] && worlds[0].submitted == []
    && forall i | 0 <= i < |steps| :: Enabled(worlds[i], steps[i]) && worlds[i + 1] == After(worlds[i], steps[i])
  }

  // ----- What a step does -----

  /** Where a client's request stands after its next step: it reads the cap of the days since the first verification, then
      today's date, then counts one up unless the cap is reached, and then submits. Nobody else's request moves. */
  lemma RequestProceeds(w: World, c: Id, account: Id, first: Option<nat>, cap: Option<nat>, slot: Slot)
    requires forall s | s in w.counters :: w.counters[s] >= 1
    requires cap.Some? ==> cap.value >= 1
    ensures Enabled(w, Query(c, account, first)) ==>
              After(w, Query(c, account, first)) == w.(clients := w.clients[c := Queried(account, first)])
    ensures c in w.clients && w.clients[c] == Queried(account, first) ==>
              After(w, ReadCap(c)) == w.(clients := w.clients[c := Capped(account, DailyCapFor(DaysSince(first, w.now)))])
    ensures c in w.clients && w.clients[c] == Capped(account, cap) ==>
              After(w, ReadDate(c)) == w.(clients := w.clients[c := Dated(Slot(account, w.now / 86_400_000), cap)])
    ensures c in w.clients && w.clients[c] == Dated(slot, cap) ==>
              After(w, Consume(c)) ==
                if cap.Some? && Count(w.counters, slot) >= cap.value then w.(clients := w.clients - {c})
                else w.(counters := w.counters[slot := Count(w.counters, slot) + 1],
                        clients := w.clients[c := Granted(slot)],
                        grants := w.grants + [Grant(slot, Count(w.counters, slot) + 1, cap)])
    ensures c in w.clients && w.clients[c] == Granted(slot) ==>
              After(w, Submit(c)) == w.(clients := w.clients - {c}, submitted := w.submitted + [slot])
    ensures c in w.clients ==> After(w, Abandon(c)) == w.(clients := w.clients - {c})
  {
  }

  /** Around the clients time passes, domains are verified at the time it is, and deleted. */
  lemma WorldMovesOn(w: World, now: nat, d: Id, account: Id)
    requires now >= w.now
    ensures After(w, Tick(now)) == w.(now := now)
    ensures var w' := After(w, Verify(d, account));
            && w' == w.(domains := w'.domains) && d in w'.domains && w'.domains[d] == Verified(account, w.now)
            && forall x | x != d :: (x in w'.domains <==> x in w.domains) && (x in w.domains ==> w'.domains[x] == w.domains[x])
    ensures var w' := After(w, DeleteDomain(d));
            && w' == w.(domains := w'.domains)
            && (forall x :: x in w'.domains <==> x in w.domains && x != d)
            && forall x | x in w'.domains :: w'.domains[x] == w.domains[x]
  {
  }

  // ----- The counter counts successes -----

  /** The values returned for one account and day, in order. */
  function Values(grants: seq<Grant>, slot: Slot): seq<nat>
  {
    if grants == [] then []
    else Values(grants[..|grants| - 1], slot)
         + if grants[|grants| - 1].slot == slot then [grants[|grants| - 1].value] else []
  }

  function UpTo(n: nat): (s: seq<nat>)
    ensures |s| == n && forall i | 0 <= i < n :: s[i] == i + 1
  {
    seq(n, i => i + 1)
  }

  function Tally(slots: seq<Slot>, slot: Slot): nat
  {
    if slots == [] then 0
    else Tally(slots[..|slots| - 1], slot) + if slots[|slots| - 1] == slot then 1 else 0
  }

  ghost function Waiting(clients: map<Id, Phase>, slot: Slot): set<Id> {
    set c | c in clients && clients[c] == Granted(slot)
  }

  /** Successes on a day return 1, 2, 3 and so on, up to the counter. */
  ghost predicate CountsSuccesses(grants: seq<Grant>, counters: Counters) {
    && (forall slot :: Values(grants, slot) == UpTo(Count(counters, slot)))
    && (forall slot | slot in counters :: counters[slot] >= 1)
  }

  /** Each success lies within the cap its client read, and the caps under way leave room for one. */
  ghost predicate CapsRespected(grants: seq<Grant>, clients: map<Id, Phase>) {
    && (forall g | g in grants :: Within(g.value, g.cap))
    && (forall c | c in clients :: PositiveCap(clients[c]))
  }

  /** Sends made, and allowances granted but not sent with yet, are together no more than the successes. */
  ghost predicate SendsBacked(submitted: seq<Slot>, clients: map<Id, Phase>, counters: Counters) {
    forall slot :: Tally(submitted, slot) + |Waiting(clients, slot)| <= Count(counters, slot)
  }

  ghost predicate Counted(w: World) {
    && CountsSuccesses(w.grants, w.counters)
    && CapsRespected(w.grants, w.clients)
    && SendsBacked(w.submitted, w.clients, w.counters)
  }

  predicate PositiveCap(p: Phase) {
    (p.Capped? || p.Dated?) && p.cap.Some? ==> p.cap.value >= 1
  }

  lemma UpsertAnswers(counters: Counters, slot: Slot, cap: Option<nat>)
    requires forall s | s in counters :: counters[s] >= 1
    requires cap.Some? ==> cap.value >= 1
    ensures var (counters', answer) := Upserted(counters, slot, cap);
            if Within(Count(counters, slot) + 1, cap)
            then && answer == Some(Count(counters, slot) + 1)
                 && forall s :: Count(counters', s) == Count(counters, s) + if s == slot then 1 else 0
            else answer == None && counters' == counters
  {
  }

  lemma WaitingOthers(clients: map<Id, Phase>, c: Id, p: Phase, slot: Slot)
    requires c in clients ==> !clients[c].Granted?
    ensures Waiting(clients[c := p], slot) == Waiting(clients, slot) + if p == Granted(slot) then {c} else {}
    ensures c !in Waiting(clients, slot)
  {
  }

  lemma WaitingWithout(clients: map<Id, Phase>, c: Id, slot: Slot)
    ensures Waiting(clients - {c}, slot) == Waiting(clients, slot) - {c}
    ensures |Waiting(clients - {c}, slot)| == |Waiting(clients, slot)| - if c in Waiting(clients, slot) then 1 else 0
  {
    assert Waiting(clients - {c}, slot) == Waiting(clients, slot) - {c};
    if c in Waiting(clients, slot) {
      assert Waiting(clients, slot) == (Waiting(clients, slot) - {c}) + {c};
    } else {
      assert Waiting(clients, slot) == Waiting(clients, slot) - {c};
    }
  }

  lemma ValuesAppend(grants: seq<Grant>, g: Grant, slot: Slot)
    ensures Values(grants + [g], slot) == Values(grants, slot) + if g.slot == slot then [g.value] else []
  {
    assert (grants + [g])[..|grants|] == grants;
  }

  /** One more success continues the sequence of its slot and no other. */
  lemma NextValue(grants: seq<Grant>, g: Grant, slot: Slot, n: nat)
    requires Values(grants, slot) == UpTo(n) && (g.slot == slot ==> g.value == n + 1)
    ensures Values(grants + [g], slot) == UpTo(n + if g.slot == slot then 1 else 0)
  {
    ValuesAppend(grants, g, slot);
    if g.slot == slot {
      assert UpTo(n + 1) == UpTo(n) + [n + 1];
    }
  }

  lemma GrantCounts(grants: seq<Grant>, counters: Counters, slot: Slot, cap: Option<nat>)
    requires CountsSuccesses(grants, counters) && (cap.Some? ==> cap.value >= 1)
    requires Within(Count(counters, slot) + 1, cap)
    ensures CountsSuccesses(grants + [Grant(slot, Count(counters, slot) + 1, cap)], Upserted(counters, slot, cap).0)
  {
    var g, counters' := Grant(slot, Count(counters, slot) + 1, cap), Upserted(counters, slot, cap).0;
    UpsertAnswers(counters, slot, cap);
    forall s
      ensures Values(grants + [g], s) == UpTo(Count(counters', s))
    {
      NextValue(grants, g, s, Count(counters, s));
    }
  }

  lemma GrantIsBacked(submitted: seq<Slot>, clients: map<Id, Phase>, counters: Counters, c: Id, slot: Slot, counters': Counters)
    requires SendsBacked(submitted, clients, counters)
    requires c in clients && !clients[c].Granted?
    requires forall s :: Count(counters', s) == Count(counters, s) + if s == slot then 1 else 0
    ensures SendsBacked(submitted, clients[c := Granted(slot)], counters')
  {
    forall s
      ensures Tally(submitted, s) + |Waiting(clients[c := Granted(slot)], s)| <= Count(counters', s)
    {
      WaitingOthers(clients, c, Granted(slot), s);
      assert Tally(submitted, s) + |Waiting(clients, s)| <= Count(counters, s);
    }
  }

  lemma GrantRespectsCaps(grants: seq<Grant>, clients: map<Id, Phase>, c: Id, g: Grant)
    requires CapsRespected(grants, clients) && Within(g.value, g.cap)
    ensures CapsRespected(grants + [g], clients[c := Granted(g.slot)])
  {
  }

  lemma ConsumeKeepsCounted(w: World, c: Id)
    requires Counted(w) && Enabled(w, Consume(c))
    ensures Counted(After(w, Consume(c)))
  {
    var slot, cap := w.clients[c].slot, w.clients[c].cap;
    var w' := After(w, Consume(c));
    assert PositiveCap(w.clients[c]);
    UpsertAnswers(w.counters, slot, cap);
    if Within(Count(w.counters, slot) + 1, cap) {
      var g := Grant(slot, Count(w.counters, slot) + 1, cap);
      assert CountsSuccesses(w'.grants, w'.counters) by {
        GrantCounts(w.grants, w.counters, slot, cap);
      }
      assert CapsRespected(w'.grants, w'.clients) by {
        GrantRespectsCaps(w.grants, w.clients, c, g);
      }
      assert SendsBacked(w'.submitted, w'.clients, w'.counters) by {
        GrantIsBacked(w.submitted, w.clients, w.counters, c, slot, w'.counters);
      }
    } else {
      AbandonKeepsCounted(w, c);
    }
  }

  lemma SubmitKeepsCounted(w: World, c: Id)
    requires Counted(w) && Enabled(w, Submit(c))
    ensures Counted(After(w, Submit(c)))
  {
    var w' := After(w, Submit(c));
    assert w'.submitted[..|w.submitted|] == w.submitted;
    forall slot
      ensures Tally(w'.submitted, slot) + |Waiting(w'.clients, slot)| <= Count(w'.counters, slot)
    {
      WaitingWithout(w.clients, c, slot);
    }
  }

  lemma PhaseKeepsCounted(w: World, c: Id, p: Phase)
    requires Counted(w) && !p.Granted? && PositiveCap(p)
    requires c in w.clients ==> !w.clients[c].Granted?
    ensures Counted(w.(clients := w.clients[c := p]))
  {
    forall slot
      ensures |Waiting(w.clients[c := p], slot)| == |Waiting(w.clients, slot)|
    {
      WaitingOthers(w.clients, c, p, slot);
      assert Waiting(w.clients[c := p], slot) == Waiting(w.clients, slot);
    }
  }

  lemma AbandonKeepsCounted(w: World, c: Id)
    requires Counted(w)
    ensures Counted(w.(clients := w.clients - {c}))
  {
    forall slot
      ensures |Waiting(w.clients - {c}, slot)| <= |Waiting(w.clients, slot)|
    {
      WaitingWithout(w.clients, c, slot);
    }
  }

  lemma StepKeepsCounted(w: World, step: Step)
    requires Counted(w) && Enabled(w, step)
    ensures Counted(After(w, step))
  {
    match step
    case Tick(_) =>
    case Verify(_, _) =>
    case DeleteDomain(_) =>
    case Query(c, account, first) => PhaseKeepsCounted(w, c, Queried(account, first));
    case ReadCap(c) =>
      PhaseKeepsCounted(w, c, Capped(w.clients[c].account, DailyCapFor(DaysSince(w.clients[c].first, w.now))));
    case ReadDate(c) =>
      assert PositiveCap(w.clients[c]);
      PhaseKeepsCounted(w, c, Dated(Slot(w.clients[c].account, DayOf(w.now)), w.clients[c].cap));
    case Consume(c) => ConsumeKeepsCounted(w, c);
    case Submit(c) => SubmitKeepsCounted(w, c);
    case Abandon(c) => AbandonKeepsCounted(w, c);
  }

  /** Under any interleaving the counter is the number of successes, which return 1, 2, 3 and so on;
      none exceeds the cap it read, and no more mail is submitted than was allowed. */
  lemma {:induction false} CapHoldsUnderInterleaving(worlds: seq<World>, steps: seq<Step>, n: nat)
    requires IsRun(worlds, steps) && n < |worlds|
    ensures Counted(worlds[n])
  {
    if n > 0 {
      CapHoldsUnderInterleaving(worlds, steps, n - 1);
      StepKeepsCounted(worlds[n - 1], steps[n - 1]);
    } else {
      forall slot
        ensures |Waiting(worlds[0].clients, slot)| == 0
      {
        assert Waiting(worlds[0].clients, slot) == {};
      }
    }
  }

  /** A refusal leaves the counters alone, and happens just when one more would exceed the cap read. */
  lemma RefusalChangesNothing(w: World, c: Id)
    requires Counted(w) && Enabled(w, Consume(c))
    ensures var p := w.clients[c];
            var w' := After(w, Consume(c));
            && (w'.grants == w.grants <==> !Within(Count(w.counters, p.slot) + 1, p.cap))
            && (w'.grants == w.grants ==> w'.counters == w.counters)
  {
    assert PositiveCap(w.clients[c]);
    UpsertAnswers(w.counters, w.clients[c].slot, w.clients[c].cap);
  }

  // ----- The volume of the first five weeks -----

  function CapOn(day: int, start: nat): Option<nat> {
    DailyCapFor(day - DayOf(start))
  }

  /** Nothing the account has verified, read or counted lies above the curve that begins at `start`. */
  ghost predicate UnderCurve(w: World, account: Id, start: nat) {
    && (forall d | d in w.domains && w.domains[d].account == account :: w.domains[d].at >= start)
    && (forall c | c in w.clients :: PhaseUnderCurve(w.clients[c], w.now, account, start))
    && (forall slot | slot in w.counters && slot.account == account :: Within(w.counters[slot], CapOn(slot.day, start)))
  }

  predicate PhaseUnderCurve(p: Phase, now: nat, account: Id, start: nat) {
    match p
    case Queried(a, first) => a == account && first.Some? ==> first.value >= start
    case Capped(a, cap) => a == account ==> AtMost(cap, CapOn(DayOf(now), start))
    case Dated(slot, cap) => slot.account == account ==> AtMost(cap, CapOn(slot.day, start))
    case Granted(_) => true
  }

  lemma CapReadIsUnderCurve(first: Option<nat>, now: nat, start: nat)
    requires first.Some? ==> first.value >= start
    ensures AtMost(DailyCapFor(DaysSince(first, now)), CapOn(DayOf(now), start))
  {
    if first.Some? {
      ElapsedAtMostCalendar(first.value, start, now);
      CurveIsMonotone(DaysSince(first, now), DayOf(now) - DayOf(start));
    }
  }

  lemma LaterIsUnderCurve(p: Phase, now: nat, later: nat, account: Id, start: nat)
    requires now <= later && PhaseUnderCurve(p, now, account, start)
    ensures PhaseUnderCurve(p, later, account, start)
  {
    if p.Capped? {
      CurveIsMonotone(DayOf(now) - DayOf(start), DayOf(later) - DayOf(start));
    }
  }

  lemma ConsumeStaysUnderCurve(w: World, c: Id, account: Id, start: nat)
    requires Counted(w) && UnderCurve(w, account, start) && Enabled(w, Consume(c))
    ensures UnderCurve(After(w, Consume(c)), account, start)
  {
    var p := w.clients[c];
    assert PositiveCap(p) && PhaseUnderCurve(p, w.now, account, start);
    UpsertAnswers(w.counters, p.slot, p.cap);
    var w' := After(w, Consume(c));
    forall slot | slot in w'.counters && slot.account == account
      ensures Within(w'.counters[slot], CapOn(slot.day, start))
    {
      assert Count(w'.counters, slot) == w'.counters[slot];
      if slot != p.slot {
        assert slot in w.counters && w'.counters[slot] == w.counters[slot];
      }
    }
  }

  lemma StepStaysUnderCurve(w: World, step: Step, account: Id, start: nat)
    requires Counted(w) && UnderCurve(w, account, start) && Enabled(w, step)
    requires step.Verify? && step.account == account ==> w.now >= start
    ensures UnderCurve(After(w, step), account, start)
  {
    match step
    case Tick(now) =>
      forall c | c in w.clients
        ensures PhaseUnderCurve(w.clients[c], now, account, start)
      {
        LaterIsUnderCurve(w.clients[c], w.now, now, account, start);
      }
    case Verify(_, _) =>
    case DeleteDomain(_) =>
    case Query(c, a, first) =>
    case ReadCap(c) =>
      assert PhaseUnderCurve(w.clients[c], w.now, account, start);
      if w.clients[c].account == account {
        CapReadIsUnderCurve(w.clients[c].first, w.now, start);
      }
    case ReadDate(c) =>
      assert PhaseUnderCurve(w.clients[c], w.now, account, start);
    case Consume(c) => ConsumeStaysUnderCurve(w, c, account, start);
    case Submit(_) =>
    case Abandon(_) =>
  }

  lemma {:induction false} RunStaysUnderCurve(worlds: seq<World>, steps: seq<Step>, n: nat, account: Id, start: nat)
    requires IsRun(worlds, steps) && n < |worlds|
    requires forall i | 0 <= i < |steps| && steps[i].Verify? && steps[i].account == account :: worlds[i].now >= start
    ensures UnderCurve(worlds[n], account, start)
  {
    if n > 0 {
      RunStaysUnderCurve(worlds, steps, n - 1, account, start);
      CapHoldsUnderInterleaving(worlds, steps, n - 1);
      StepStaysUnderCurve(worlds[n - 1], steps[n - 1], account, start);
    }
  }

  /** Allowances counted over the days from `day` on. */
  function Volume(counters: Counters, account: Id, day: nat, days: nat): nat
  {
    if days == 0 then 0 else Volume(counters, account, day, days - 1) + Count(counters, Slot(account, day + days - 1))
  }

  function SubmittedOver(slots: seq<Slot>, account: Id, day: nat, days: nat): nat
  {
    if days == 0 then 0 else SubmittedOver(slots, account, day, days - 1) + Tally(slots, Slot(account, day + days - 1))
  }

  /** What the curve adds up to. */
  function CurveSum(days: nat): nat
    requires days <= 35
  {
    if days == 0 then 0 else CurveSum(days - 1) + DailyCapFor(days - 1).value
  }

  lemma {:induction false} VolumeUnderCurve(w: World, account: Id, start: nat, days: nat)
    requires UnderCurve(w, account, start) && days <= 35
    ensures Volume(w.counters, account, DayOf(start), days) <= CurveSum(days)
  {
    if days > 0 {
      VolumeUnderCurve(w, account, start, days - 1);
      var slot := Slot(account, DayOf(start) + days - 1);
      assert slot in w.counters ==> Within(w.counters[slot], CapOn(slot.day, start));
    }
  }

  lemma {:induction false} SubmittedUnderVolume(w: World, account: Id, day: nat, days: nat)
    requires Counted(w)
    ensures SubmittedOver(w.submitted, account, day, days) <= Volume(w.counters, account, day, days)
  {
    if days > 0 {
      SubmittedUnderVolume(w, account, day, days - 1);
      assert Tally(w.submitted, Slot(account, day + days - 1)) <= Count(w.counters, Slot(account, day + days - 1));
    }
  }

  lemma {:induction false} CurveSumWeek(week: nat, days: nat)
    requires week < 5 && days <= 7
    ensures CurveSum(7 * week + days) == CurveSum(7 * week) + days * WEEKLY_TARGETS[week]
  {
    if days > 0 {
      CurveSumWeek(week, days - 1);
      assert days * WEEKLY_TARGETS[week] == (days - 1) * WEEKLY_TARGETS[week] + WEEKLY_TARGETS[week];
      assert (7 * week + (days - 1)) / 7 == week;
      assert CurveSum(7 * week + days) == CurveSum(7 * week + (days - 1)) + WEEKLY_TARGETS[week];
    }
  }

  lemma CurveSumTotal()
    ensures CurveSum(35) == 5390
  {
    CurveSumWeek(0, 7);
    CurveSumWeek(1, 7);
    CurveSumWeek(2, 7);
    CurveSumWeek(3, 7);
    CurveSumWeek(4, 7);
  }

  /** An account that verifies nothing before `start` consumes, and so submits, at most 5390 over the 35
      calendar days from then on, whatever is verified or deleted later and however clients interleave. */
  lemma FiveWeekVolume(worlds: seq<World>, steps: seq<Step>, n: nat, account: Id, start: nat)
    requires IsRun(worlds, steps) && n < |worlds|
    requires forall i | 0 <= i < |steps| && steps[i].Verify? && steps[i].account == account :: worlds[i].now >= start
    ensures Volume(worlds[n].counters, account, DayOf(start), 35) <= 5390
    ensures SubmittedOver(worlds[n].submitted, account, DayOf(start), 35) <= 5390
  {
    RunStaysUnderCurve(worlds, steps, n, account, start);
    VolumeUnderCurve(worlds[n], account, start, 35);
    CurveSumTotal();
    CapHoldsUnderInterleaving(worlds, steps, n);
    SubmittedUnderVolume(worlds[n], account, DayOf(start), 35);
  }

  // ----- The service -----

  class WarmupService {
    var domains: Domains
    var counters: Counters

    constructor ()
      ensures domains == map[] && counters == map[]
    {
      domains, counters := map[], map[];
    }

    /** SELECT ... ORDER BY verified_at LIMIT 1. */
    method FirstVerified(account: Id) returns (first: Option<nat>)
      ensures IsEarliest(domains, account, first)
    {
      first := None;
      var todo := domains.Keys;
      while todo != {}
        invariant todo <= domains.Keys
        invariant first.Some? ==> exists d :: d in domains && domains[d] == Verified(account, first.value)
        invariant forall d | d in domains.Keys - todo && domains[d].account == account :: first.Some? && first.value <= domains[d].at
        decreases |todo|
      {
        var d :| d in todo;
        todo := todo - {d};
        if domains[d].account == account && (first.None? || domains[d].at < first.value) {
          assert domains[d] == Verified(account, domains[d].at);
          first := Some(domains[d].at);
        }
      }
    }

    method DaysSinceFirstVerified(account: Id, now: nat) returns (days: int)
      ensures exists first :: IsEarliest(domains, account, first) && days == DaysSince(first, now)
    {
      var first := FirstVerified(account);
      days := if first.None? then 0 else (now - first.value) / DAY;
    }

    method Upsert(slot: Slot, cap: Option<nat>) returns (sent: Option<nat>)
      modifies this`counters
      ensures (counters, sent) == Upserted(old(counters), slot, cap)
    {
      if slot !in counters {
        counters := counters[slot := 1];
        return Some(1);
      }
      if cap.Some? && counters[slot] >= cap.value {
        return None;
      }
      counters := counters[slot := counters[slot] + 1];
      return Some(counters[slot]);
    }

    /** Called alone: the clock is read once for the cap and once for the date. */
    method ConsumeAllowance(account: Id, now: nat, later: nat) returns (sent: Option<nat>)
      modifies this`counters
      ensures exists first ::
                && IsEarliest(domains, account, first)
                && (counters, sent) == Upserted(old(counters), Slot(account, DayOf(later)), DailyCapFor(DaysSince(first, now)))
    {
      var days := DaysSinceFirstVerified(account, now);
      var cap := DailyCapFor(days);
      sent := Upsert(Slot(account, DayOf(later)), cap);
    }
  }
}
