/**
 * Mailbox logins, their lockout and the rotating sessions: src/auth/mailbox-auth.service.ts with the
 * counters of src/mailboxes/mailbox.repository.ts. Whether a password is right is given per check.
 */
module MailboxAuth {
  import opened Prelude
  import opened Addresses

  const MAX_ATTEMPTS: nat := 10
  const LOCK_MS: nat := 15 * 60 * 1000

  /** `usable` is what requireUsable finds: mailbox, domain and account active and the domain verified. */
  datatype Standing = Standing(usable: bool, failures: nat, lockedUntil: Option<nat>)

  datatype Session = Session(mailbox: Id, expiresAt: nat)

  /** Refresh tokens are random; here they are numbers never handed out before. */
  datatype State = State(
    addresses: map<Address, Id>,
    mailboxes: map<Id, Standing>,
    sessions: map<nat, Session>,
    nextToken: nat)

  datatype Reply = Unauthorized | Locked | Forbidden | Opened(token: nat) | Done

  // ----- Effects -----

  /** registerFailedLogin, at the time the database records it. */
  function AfterFailure(s: Standing, now: nat): Standing {
    s.(failures := s.failures + 1,
       lockedUntil := if s.failures + 1 >= MAX_ATTEMPTS then Some(now + LOCK_MS) else s.lockedUntil)
  }

  /** clearFailedLogins. */
  function Cleared(s: Standing): Standing {
    s.(failures := 0, lockedUntil := None)
  }

  predicate LockedAt(s: Standing, now: nat) {
    s.lockedUntil.Some? && s.lockedUntil.value > now
  }

  function Issued(s: State, m: Id, now: nat, ttl: nat): State {
    s.(sessions := s.sessions[s.nextToken := Session(m, now + ttl)], nextToken := s.nextToken + 1)
  }

  function Revoke(s: State, token: nat): State {
    s.(sessions := s.sessions - {token})
  }

  function RevokeAll(s: State, m: Id): State {
    s.(sessions := map t | t in s.sessions && s.sessions[t].mailbox != m :: s.sessions[t])
  }

  function LoginEffect(s: State, email: string, correct: bool, check: nat, record: nat, ttl: nat): (State, Reply) {
    var address := Split(email);
    if address.None? || address.value !in s.addresses || s.addresses[address.value] !in s.mailboxes then (s, Unauthorized)
    else
      var m := s.addresses[address.value];
      var found := s.mailboxes[m];
      if LockedAt(found, check) then (s, Locked)
      else if !found.usable then (s, Forbidden)
      else if !correct then (s.(mailboxes := s.mailboxes[m := AfterFailure(found, record)]), Unauthorized)
      else (Issued(s.(mailboxes := s.mailboxes[m := Cleared(found)]), m, record, ttl), Opened(s.nextToken))
  }

  function RefreshEffect(s: State, token: nat, now: nat, ttl: nat): (State, Reply) {
    if token !in s.sessions || s.sessions[token].expiresAt <= now then (s, Unauthorized)
    else
      var m := s.sessions[token].mailbox;
      if m !in s.mailboxes then (s, Unauthorized)
      else if !s.mailboxes[m].usable then (s, Forbidden)
      else (Issued(Revoke(s, token), m, now, ttl), Opened(s.nextToken))
  }

  function ChangePasswordEffect(s: State, m: Id, correct: bool): (State, Reply) {
    if m !in s.mailboxes then (s, Unauthorized)
    else if !correct then (s, Forbidden)
    else (RevokeAll(s.(mailboxes := s.mailboxes[m := Cleared(s.mailboxes[m])]), m), Done)
  }

  /** setPassword by the owning account: the counters are cleared, the sessions stay. */
  function ResetEffect(s: State, m: Id): State {
    if m in s.mailboxes then s.(mailboxes := s.mailboxes[m := Cleared(s.mailboxes[m])]) else s
  }

  // ----- Runs -----

  datatype Event =
    | Login(email: string, correct: bool, check: nat, record: nat)
    | Refresh(token: nat, now: nat)
    | Logout(token: nat)
    | ChangePassword(mailbox: Id, correct: bool)
    | Reset(mailbox: Id)
    | Toggle(mailbox: Id, usable: bool)
    | Create(address: Address, mailbox: Id, usable: bool)
    | Delete(mailbox: Id)

  function After(s: State, e: Event, ttl: nat): (State, Reply) {
    match e
    case Login(email, correct, check, record) => LoginEffect(s, email, correct, check, record, ttl)
    case Refresh(token, now) => RefreshEffect(s, token, now, ttl)
    case Logout(token) => (Revoke(s, token), Done)
    case ChangePassword(m, correct) => ChangePasswordEffect(s, m, correct)
    case Reset(m) => (ResetEffect(s, m), Done)
    case Toggle(m, usable) =>
      (if m in s.mailboxes then s.(mailboxes := s.mailboxes[m := s.mailboxes[m].(usable := usable)]) else s, Done)
    case Create(address, m, usable) =>
      (if address in s.addresses || m in s.mailboxes then s
       else s.(addresses := s.addresses[address := m], mailboxes := s.mailboxes[m := Standing(usable, 0, None)]), Done)
    case Delete(m) =>
      (RevokeAll(s.(addresses := map a | a in s.addresses && s.addresses[a] != m :: s.addresses[a], mailboxes := s.mailboxes - {m}), m), Done)
  }

  ghost predicate IsRun(states: seq<State>, events: seq<Event>, ttl: nat) {
    && |states| == |events| + 1
    && forall i | 0 <= i < |events| :: states[i + 1] == After(states[i], events[i], ttl).0
  }

  function ReplyTo(s: State, e: Event, ttl: nat): Reply {
    After(s, e, ttl).1
  }

  // ----- A lock means ten failures -----

  /** A mailbox has a lock exactly when ten failures or more are recorded; tokens are below the next one. */
  ghost predicate Sound(s: State) {
    && (forall m | m in s.mailboxes :: s.mailboxes[m].lockedUntil.Some? <==> s.mailboxes[m].failures >= MAX_ATTEMPTS)
    && (forall t | t in s.sessions :: t < s.nextToken)
  }

  lemma StepKeepsSound(s: State, e: Event, ttl: nat)
    requires Sound(s)
    ensures Sound(After(s, e, ttl).0)
  {
  }

  lemma {:induction false} LockMeansTenFailures(states: seq<State>, events: seq<Event>, ttl: nat, n: nat)
    requires IsRun(states, events, ttl) && Sound(states[0]) && n < |states|
    ensures Sound(states[n])
  {
    if n > 0 {
      LockMeansTenFailures(states, events, ttl, n - 1);
      StepKeepsSound(states[n - 1], events[n - 1], ttl);
    }
  }

  // ----- How fast logins can fail -----

  /** The event is a login whose email is the mailbox's address at that moment. */
  predicate LogsInto(s: State, e: Event, m: Id) {
    && e.Login?
    && Split(e.email).Some? && Split(e.email).value in s.addresses && s.addresses[Split(e.email).value] == m
  }

  /** The event is a failed login: one that gets past the lock and has the password wrong. */
  predicate FailsLogin(s: State, e: Event, m: Id) {
    && LogsInto(s, e, m) && !e.correct
    && m in s.mailboxes && s.mailboxes[m].usable && !LockedAt(s.mailboxes[m], e.check)
  }

  /** The event clears the mailbox's counters, or removes or makes the mailbox. */
  predicate Resets(s: State, e: Event, m: Id, ttl: nat) {
    match e
    case Login(email, _, _, _) =>
      ReplyTo(s, e, ttl).Opened? && s.addresses[Split(email).value] == m
    case ChangePassword(mailbox, correct) => mailbox == m && correct
    case Reset(mailbox) => mailbox == m
    case Create(_, mailbox, _) => mailbox == m
    case Delete(mailbox) => mailbox == m
    case _ => false
  }

  /** When the failures of the first n events were recorded. */
  function FailureTimes(states: seq<State>, events: seq<Event>, m: Id, n: nat): seq<nat>
    requires n <= |events| <= |states|
  {
    if n == 0 then []
    else FailureTimes(states, events, m, n - 1) + if FailsLogin(states[n - 1], events[n - 1], m) then [events[n - 1].record] else []
  }

  /** Logins into the mailbox are handled one after the other on one clock; those into others may overlap with anything. */
  ghost predicate Sequential(states: seq<State>, events: seq<Event>, m: Id)
    requires |events| <= |states|
  {
    && (forall i | 0 <= i < |events| && LogsInto(states[i], events[i], m) :: events[i].check <= events[i].record)
    && forall i, j | 0 <= i < j < |events| && LogsInto(states[i], events[i], m) && LogsInto(states[j], events[j], m) ::
         events[i].record <= events[j].check
  }

  function Allowance(failures: nat): nat {
    if failures < MAX_ATTEMPTS then MAX_ATTEMPTS - failures else 1
  }

  function LockedUntil(s: State, m: Id): Option<nat> {
    if m in s.mailboxes then s.mailboxes[m].lockedUntil else None
  }

  function Failures(s: State, m: Id): nat {
    if m in s.mailboxes then s.mailboxes[m].failures else 0
  }

  /** What is known after some failures at `times`, counted on from `before`. */
  ghost predicate Paced(s: State, m: Id, before: nat, times: seq<nat>) {
    && Failures(s, m) == before + |times|
    && (times != [] ==>
          && times[0] <= times[|times| - 1]
          && (before + |times| >= MAX_ATTEMPTS ==> LockedUntil(s, m) == Some(times[|times| - 1] + LOCK_MS))
          && |times| <= Allowance(before) + (times[|times| - 1] - times[0]) / LOCK_MS)
  }

  lemma OneLockLater(first: nat, last: nat, next: nat)
    requires first <= last && last + LOCK_MS <= next
    ensures (next - first) / LOCK_MS >= (last - first) / LOCK_MS + 1
  {
    assert (last - first + LOCK_MS) / LOCK_MS == (last - first) / LOCK_MS + 1;
  }

  lemma PacedFailure(s: State, e: Event, ttl: nat, m: Id, before: nat, times: seq<nat>)
    requires Paced(s, m, before, times) && FailsLogin(s, e, m) && e.check <= e.record
    requires times != [] ==> times[|times| - 1] <= e.check
    ensures Paced(After(s, e, ttl).0, m, before, times + [e.record])
  {
    var times' := times + [e.record];
    if times != [] {
      assert times'[0] == times[0];
      if before + |times| >= MAX_ATTEMPTS {
        OneLockLater(times[0], times[|times| - 1], e.record);
      }
    }
  }

  lemma PacedOther(s: State, e: Event, ttl: nat, m: Id)
    requires !FailsLogin(s, e, m) && !Resets(s, e, m, ttl)
    ensures var s' := After(s, e, ttl).0;
            Failures(s', m) == Failures(s, m) && LockedUntil(s', m) == LockedUntil(s, m)
  {
  }

  lemma PacedStep(s: State, e: Event, ttl: nat, m: Id, before: nat, times: seq<nat>)
    requires Paced(s, m, before, times) && !Resets(s, e, m, ttl)
    requires FailsLogin(s, e, m) ==> e.check <= e.record && (times != [] ==> times[|times| - 1] <= e.check)
    ensures Paced(After(s, e, ttl).0, m, before, times + if FailsLogin(s, e, m) then [e.record] else [])
  {
    if FailsLogin(s, e, m) {
      PacedFailure(s, e, ttl, m, before, times);
    } else {
      PacedOther(s, e, ttl, m);
      assert times + [] == times;
    }
  }

  lemma {:induction false} FailureTimesEarlier(states: seq<State>, events: seq<Event>, m: Id, n: nat, next: nat)
    requires n <= |events| <= |states|
    requires forall i | 0 <= i < n && LogsInto(states[i], events[i], m) :: events[i].record <= next
    ensures var times := FailureTimes(states, events, m, n); times != [] ==> times[|times| - 1] <= next
  {
    if n > 0 {
      FailureTimesEarlier(states, events, m, n - 1, next);
    }
  }

  lemma {:induction false} FailuresArePaced(states: seq<State>, events: seq<Event>, ttl: nat, m: Id, n: nat)
    requires IsRun(states, events, ttl) && Sequential(states, events, m) && n <= |events|
    requires forall i | 0 <= i < |events| :: !Resets(states[i], events[i], m, ttl)
    ensures Paced(states[n], m, Failures(states[0], m), FailureTimes(states, events, m, n))
  {
    if n > 0 {
      FailuresArePaced(states, events, ttl, m, n - 1);
      var times := FailureTimes(states, events, m, n - 1);
      if FailsLogin(states[n - 1], events[n - 1], m) {
        assert LogsInto(states[n - 1], events[n - 1], m);
        FailureTimesEarlier(states, events, m, n - 1, events[n - 1].check);
      }
      PacedStep(states[n - 1], events[n - 1], ttl, m, Failures(states[0], m), times);
    }
  }

  lemma DivisionGrows(a: int, b: int)
    requires a <= b
    ensures a / LOCK_MS <= b / LOCK_MS
  {
  }

  lemma PacedWithin(s: State, m: Id, before: nat, times: seq<nat>, window: nat)
    requires Paced(s, m, before, times) && times != [] && times[|times| - 1] <= times[0] + window
    ensures |times| <= Allowance(before) + window / LOCK_MS
  {
    DivisionGrows(times[|times| - 1] - times[0], window);
  }

  /** Between resets, the failed logins of a mailbox recorded within `window` of the first number at most
      what was left of ten, and one more for every fifteen minutes. */
  lemma FailedLoginRate(states: seq<State>, events: seq<Event>, ttl: nat, m: Id, n: nat, window: nat)
    requires IsRun(states, events, ttl) && Sequential(states, events, m) && n <= |events|
    requires forall i | 0 <= i < |events| :: !Resets(states[i], events[i], m, ttl)
    requires var times := FailureTimes(states, events, m, n);
             times != [] && times[|times| - 1] <= times[0] + window
    ensures |FailureTimes(states, events, m, n)| <= Allowance(Failures(states[0], m)) + window / LOCK_MS
  {
    FailuresArePaced(states, events, ttl, m, n);
    PacedWithin(states[n], m, Failures(states[0], m), FailureTimes(states, events, m, n), window);
  }

  /** A wrong current password given to a password change moves no counter, sets no lock and closes no session. */
  lemma WrongChangeIsNotCounted(s: State, m: Id, ttl: nat)
    ensures After(s, ChangePassword(m, false), ttl) == (s, if m in s.mailboxes then Forbidden else Unauthorized)
  {
  }

  /** So any number of them in a row is answered alike and leaves everything as it was: the bound on failed
      logins is no bound on these. */
  lemma {:induction false} WrongChangesAreUnbounded(states: seq<State>, events: seq<Event>, ttl: nat, m: Id, n: nat)
    requires IsRun(states, events, ttl) && n <= |events| && m in states[0].mailboxes
    requires forall i | 0 <= i < |events| :: events[i] == ChangePassword(m, false)
    ensures states[n] == states[0]
    ensures n < |events| ==> ReplyTo(states[n], events[n], ttl) == Forbidden
  {
    if n > 0 {
      WrongChangesAreUnbounded(states, events, ttl, m, n - 1);
      WrongChangeIsNotCounted(states[n - 1], m, ttl);
    }
    WrongChangeIsNotCounted(states[n], m, ttl);
  }

  // ----- Who gets in -----

  predicate Unlocked(row: Standing, now: nat) {
    row.lockedUntil.None? || row.lockedUntil.value <= now
  }

  /** While its lock is ahead of the check, a mailbox opens for nobody, and nothing is counted. */
  lemma LockedOpensForNobody(s: State, e: Event, m: Id, ttl: nat)
    requires LogsInto(s, e, m) && m in s.mailboxes && !Unlocked(s.mailboxes[m], e.check)
    ensures After(s, e, ttl) == (s, Locked)
  {
  }

  /** A login opens exactly a usable, unlocked mailbox, with the right password. It is given a token of its own until
      `ttl` later, and the counters start anew. */
  lemma LoginOpensExactly(s: State, e: Event, m: Id, ttl: nat)
    requires LogsInto(s, e, m) && m in s.mailboxes
    ensures var (s', reply) := After(s, e, ttl);
            && (reply.Opened? <==> e.correct && s.mailboxes[m].usable && Unlocked(s.mailboxes[m], e.check))
            && (Unlocked(s.mailboxes[m], e.check) && !reply.Opened? ==> reply == if s.mailboxes[m].usable then Unauthorized else Forbidden)
            && (reply.Opened? ==>
                  && reply.token == s.nextToken < s'.nextToken
                  && s'.sessions == s.sessions[reply.token := Session(m, e.record + ttl)]
                  && s'.mailboxes == s.mailboxes[m := Standing(true, 0, None)]
                  && s'.addresses == s.addresses)
  {
  }

  /** A login that does not open leaves sessions and addresses alone. */
  lemma RefusedLogin(s: State, e: Event, ttl: nat)
    requires e.Login? && !After(s, e, ttl).1.Opened?
    ensures After(s, e, ttl).0 == s.(mailboxes := After(s, e, ttl).0.mailboxes)
  {
    var address := Split(e.email);
    if address.Some? && address.value in s.addresses {
      assert LogsInto(s, e, s.addresses[address.value]);
    }
  }

  /** It counts exactly when the password was tried and wrong, and locks from the tenth on. */
  lemma RefusedLoginCounts(s: State, e: Event, ttl: nat, m: Id)
    requires e.Login? && !After(s, e, ttl).1.Opened? && m in s.mailboxes
    ensures var s' := After(s, e, ttl).0;
            && m in s'.mailboxes
            && s'.mailboxes[m].usable == s.mailboxes[m].usable
            && s'.mailboxes[m].failures == s.mailboxes[m].failures + (if FailsLogin(s, e, m) then 1 else 0)
            && s'.mailboxes[m].lockedUntil == if FailsLogin(s, e, m) && s.mailboxes[m].failures >= MAX_ATTEMPTS - 1
                                              then Some(e.record + LOCK_MS) else s.mailboxes[m].lockedUntil
  {
  }

  /** A login into no mailbox is answered like a wrong password. */
  lemma UnknownLogin(s: State, e: Event, ttl: nat)
    requires e.Login?
    ensures After(s, e, ttl) == (s, Unauthorized) || exists m :: m in s.mailboxes && LogsInto(s, e, m)
  {
    var address := Split(e.email);
    if address.Some? && address.value in s.addresses && s.addresses[address.value] in s.mailboxes {
      assert LogsInto(s, e, s.addresses[address.value]);
    }
  }

  predicate LockedBeyond(s: State, m: Id, until: nat) {
    m in s.mailboxes && s.mailboxes[m].lockedUntil.Some? && s.mailboxes[m].lockedUntil.value >= until
  }

  lemma LockLasts(s: State, e: Event, ttl: nat, m: Id, until: nat)
    requires LockedBeyond(s, m, until) && !Resets(s, e, m, ttl)
    requires LogsInto(s, e, m) ==> e.check <= e.record
    ensures LockedBeyond(After(s, e, ttl).0, m, until)
  {
  }

  lemma {:induction false} LockLastsThrough(states: seq<State>, events: seq<Event>, ttl: nat, m: Id, i: nat, j: nat, until: nat)
    requires IsRun(states, events, ttl) && i <= j <= |events| && LockedBeyond(states[i], m, until)
    requires forall k | i <= k < j :: !Resets(states[k], events[k], m, ttl) && (LogsInto(states[k], events[k], m) ==> events[k].check <= events[k].record)
    ensures LockedBeyond(states[j], m, until)
    decreases j
  {
    if i < j {
      LockLastsThrough(states, events, ttl, m, i, j - 1, until);
      LockLasts(states[j - 1], events[j - 1], ttl, m, until);
    }
  }

  /** After a failed login that leaves ten failures or more, no login checked within fifteen minutes of its recording
      opens the mailbox, whatever the password, unless something reset the counters in between. */
  lemma TenFailuresLockOut(states: seq<State>, events: seq<Event>, ttl: nat, m: Id, i: nat, j: nat)
    requires IsRun(states, events, ttl) && i < j < |events|
    requires FailsLogin(states[i], events[i], m) && Failures(states[i], m) + 1 >= MAX_ATTEMPTS
    requires forall k | i < k < j :: !Resets(states[k], events[k], m, ttl) && (LogsInto(states[k], events[k], m) ==> events[k].check <= events[k].record)
    requires LogsInto(states[j], events[j], m) && events[j].check < events[i].record + 15 * 60 * 1000
    ensures After(states[j], events[j], ttl) == (states[j], Locked)
  {
    assert states[i + 1] == After(states[i], events[i], ttl).0;
    RefusedLoginCounts(states[i], events[i], ttl, m);
    LockLastsThrough(states, events, ttl, m, i + 1, j, events[i].record + LOCK_MS);
    LockedOpensForNobody(states[j], events[j], m, ttl);
  }

  /** The event is about the mailbox: its address, one of its tokens, or the mailbox itself. */
  predicate Concerns(s: State, e: Event, m: Id) {
    match e
    case Login(_, _, _, _) => LogsInto(s, e, m)
    case Refresh(token, _) => token in s.sessions && s.sessions[token].mailbox == m
    case Logout(token) => token in s.sessions && s.sessions[token].mailbox == m
    case ChangePassword(mailbox, _) => mailbox == m
    case Reset(mailbox) => mailbox == m
    case Toggle(mailbox, _) => mailbox == m
    case Create(_, mailbox, _) => mailbox == m
    case Delete(mailbox) => mailbox == m
  }

  function SessionsOf(s: State, m: Id): map<nat, nat> {
    map t | t in s.sessions && s.sessions[t].mailbox == m :: s.sessions[t].expiresAt
  }

  lemma StandingIsUntouched(s: State, e: Event, ttl: nat, m: Id)
    requires !Concerns(s, e, m)
    ensures var s' := After(s, e, ttl).0;
            && (m in s'.mailboxes <==> m in s.mailboxes)
            && (m in s.mailboxes ==> s'.mailboxes[m] == s.mailboxes[m])
  {
  }

  lemma SessionsAreUntouched(s: State, e: Event, ttl: nat, m: Id, t: nat)
    requires !Concerns(s, e, m) && forall u | u in s.sessions :: u < s.nextToken
    ensures var s' := After(s, e, ttl).0;
            && (t in SessionsOf(s', m) <==> t in SessionsOf(s, m))
            && (t in SessionsOf(s, m) ==> SessionsOf(s', m)[t] == SessionsOf(s, m)[t])
  {
  }

  /** No event touches the standing or the sessions of a mailbox it is not about. */
  lemma OthersAreUntouched(s: State, e: Event, ttl: nat, m: Id)
    requires !Concerns(s, e, m) && forall t | t in s.sessions :: t < s.nextToken
    ensures var s' := After(s, e, ttl).0;
            && SessionsOf(s', m) == SessionsOf(s, m)
            && (m in s'.mailboxes <==> m in s.mailboxes)
            && (m in s.mailboxes ==> s'.mailboxes[m] == s.mailboxes[m])
  {
    var s' := After(s, e, ttl).0;
    StandingIsUntouched(s, e, ttl, m);
    assert SessionsOf(s', m) == SessionsOf(s, m) by {
      forall t: nat
        ensures t in SessionsOf(s', m) <==> t in SessionsOf(s, m)
        ensures t in SessionsOf(s, m) ==> SessionsOf(s', m)[t] == SessionsOf(s, m)[t]
      {
        SessionsAreUntouched(s, e, ttl, m, t);
      }
    }
  }

  // ----- Sessions -----

  /** A refresh opens exactly for a token not yet expired, of a usable mailbox. It exchanges the token for a later one of
      the same mailbox and leaves everything else. */
  lemma RefreshOpensExactly(s: State, token: nat, now: nat, ttl: nat)
    ensures var (s', reply) := After(s, Refresh(token, now), ttl);
            && (reply.Opened? <==>
                  && token in s.sessions && now < s.sessions[token].expiresAt
                  && s.sessions[token].mailbox in s.mailboxes && s.mailboxes[s.sessions[token].mailbox].usable)
            && (reply.Opened? ==>
                  && reply.token == s.nextToken < s'.nextToken
                  && s'.sessions == (s.sessions - {token})[reply.token := Session(s.sessions[token].mailbox, now + ttl)]
                  && s'.mailboxes == s.mailboxes && s'.addresses == s.addresses)
            && (!reply.Opened? ==> s' == s)
            && (!reply.Opened? ==> reply == if token in s.sessions && now < s.sessions[token].expiresAt
                                               && s.sessions[token].mailbox in s.mailboxes then Forbidden else Unauthorized)
  {
  }

  /** A mailbox comes only at a free address and under an id of its own, with no failures; one that goes takes its address
      and its sessions along, and nothing else. */
  lemma MailboxesComeAndGo(s: State, address: Address, m: Id, usable: bool, ttl: nat)
    ensures var s' := After(s, Create(address, m, usable), ttl).0;
            if address in s.addresses || m in s.mailboxes then s' == s
            else s' == s.(addresses := s.addresses[address := m], mailboxes := s.mailboxes[m := Standing(usable, 0, None)])
    ensures var s' := After(s, Delete(m), ttl).0;
            && (forall i :: i in s'.mailboxes <==> i in s.mailboxes && i != m)
            && (forall i | i in s'.mailboxes :: s'.mailboxes[i] == s.mailboxes[i])
            && (forall a :: a in s'.addresses <==> a in s.addresses && s.addresses[a] != m)
            && (forall a | a in s'.addresses :: s'.addresses[a] == s.addresses[a])
            && (forall t :: t in s'.sessions <==> t in s.sessions && s.sessions[t].mailbox != m)
            && (forall t | t in s'.sessions :: s'.sessions[t] == s.sessions[t])
            && s'.nextToken == s.nextToken
    ensures var s' := After(s, Toggle(m, usable), ttl).0;
            s' == s.(mailboxes := if m in s.mailboxes then s.mailboxes[m := s.mailboxes[m].(usable := usable)] else s.mailboxes)
  {
  }

  /** The right password closes every session of the mailbox, and no other, and gives all ten attempts back; a reset by the
      account gives the attempts back and closes none. */
  lemma PasswordChangeCloses(s: State, m: Id, ttl: nat)
    requires m in s.mailboxes
    ensures var (s', reply) := After(s, ChangePassword(m, true), ttl);
            && reply.Done?
            && (forall t :: t in s'.sessions <==> t in s.sessions && s.sessions[t].mailbox != m)
            && (forall t | t in s'.sessions :: s'.sessions[t] == s.sessions[t])
            && s'.mailboxes == s.mailboxes[m := Standing(s.mailboxes[m].usable, 0, None)]
            && s'.addresses == s.addresses && s'.nextToken == s.nextToken
    ensures After(s, Reset(m), ttl).0 == s.(mailboxes := s.mailboxes[m := Standing(s.mailboxes[m].usable, 0, None)])
  {
  }

  predicate ExpiresBy(s: State, token: nat, end: nat) {
    token < s.nextToken && (token in s.sessions ==> s.sessions[token].expiresAt <= end)
  }

  lemma ExpiryIsNotPutOff(s: State, e: Event, ttl: nat, token: nat, end: nat)
    requires ExpiresBy(s, token, end)
    ensures ExpiresBy(After(s, e, ttl).0, token, end)
  {
  }

  lemma {:induction false} ExpiryIsKept(states: seq<State>, events: seq<Event>, ttl: nat, token: nat, end: nat, i: nat, j: nat)
    requires IsRun(states, events, ttl) && i <= j < |states| && ExpiresBy(states[i], token, end)
    ensures ExpiresBy(states[j], token, end)
    decreases j
  {
    if i < j {
      ExpiryIsKept(states, events, ttl, token, end, i, j - 1);
      ExpiryIsNotPutOff(states[j - 1], events[j - 1], ttl, token, end);
    }
  }

  /** The clock an event opens a session by. */
  function OpenedAt(e: Event): nat
    requires e.Login? || e.Refresh?
  {
    if e.Login? then e.record else e.now
  }

  /** No token opens anything `ttl` after it was handed out. */
  lemma TokenExpires(states: seq<State>, events: seq<Event>, ttl: nat, i: nat, j: nat, token: nat)
    requires IsRun(states, events, ttl) && i < j < |events|
    requires (events[i].Login? || events[i].Refresh?) && ReplyTo(states[i], events[i], ttl) == Opened(token)
    requires events[j].Refresh? && events[j].token == token && events[j].now >= OpenedAt(events[i]) + ttl
    ensures After(states[j], events[j], ttl) == (states[j], Unauthorized)
  {
    assert states[i + 1] == After(states[i], events[i], ttl).0;
    ExpiryIsKept(states, events, ttl, token, OpenedAt(events[i]) + ttl, i + 1, j);
  }

  lemma TokenStaysGone(s: State, e: Event, ttl: nat, token: nat)
    requires token < s.nextToken && token !in s.sessions
    ensures var s' := After(s, e, ttl).0; token < s'.nextToken && token !in s'.sessions
  {
  }

  /** A token that was handed out and is gone never comes back. */
  lemma {:induction false} GoneForGood(states: seq<State>, events: seq<Event>, ttl: nat, token: nat, i: nat, j: nat)
    requires IsRun(states, events, ttl) && i <= j < |states|
    requires token < states[i].nextToken && token !in states[i].sessions
    ensures token < states[j].nextToken && token !in states[j].sessions
  {
    if i < j {
      GoneForGood(states, events, ttl, token, i, j - 1);
      TokenStaysGone(states[j - 1], events[j - 1], ttl, token);
    }
  }

  /** A refresh token opens at most one session, and none after a logout with it or a password change. */
  lemma TokenOpensOnce(states: seq<State>, events: seq<Event>, ttl: nat, token: nat, i: nat, j: nat)
    requires IsRun(states, events, ttl) && Sound(states[0]) && i < j < |events|
    requires events[j].Refresh? && events[j].token == token
    requires token < states[i].nextToken
    requires || (events[i].Refresh? && events[i].token == token && ReplyTo(states[i], events[i], ttl).Opened?)
             || (events[i].Logout? && events[i].token == token)
             || (events[i].ChangePassword? && ReplyTo(states[i], events[i], ttl).Done?
                 && token in states[i].sessions && states[i].sessions[token].mailbox == events[i].mailbox)
    ensures ReplyTo(states[j], events[j], ttl) == Unauthorized
  {
    LockMeansTenFailures(states, events, ttl, i);
    assert states[i + 1] == After(states[i], events[i], ttl).0;
    GoneForGood(states, events, ttl, token, i + 1, j);
  }

  // ----- The service -----

  class MailboxAuthService {
    var addresses: map<Address, Id>
    var mailboxes: map<Id, Standing>
    var sessions: map<nat, Session>
    var nextToken: nat
    const ttl: nat

    ghost function Current(): State
      reads this
    {
      State(addresses, mailboxes, sessions, nextToken)
    }

    constructor (ttl: nat)
      ensures this.ttl == ttl && Current() == State(map[], map[], map[], 0)
    {
      this.ttl, addresses, mailboxes, sessions, nextToken := ttl, map[], map[], map[], 0;
    }

    method Issue(m: Id, now: nat) returns (token: nat)
      modifies this`sessions, this`nextToken
      ensures Current() == Issued(old(Current()), m, now, ttl) && token == old(nextToken)
    {
      token := nextToken;
      sessions := sessions[token := Session(m, now + ttl)];
      nextToken := nextToken + 1;
    }

    method RegisterFailedLogin(m: Id, now: nat)
      requires m in mailboxes
      modifies this`mailboxes
      ensures mailboxes == old(mailboxes)[m := AfterFailure(old(mailboxes[m]), now)]
      // from the tenth failure on the mailbox is locked for exactly the next fifteen minutes
      ensures mailboxes[m].failures >= MAX_ATTEMPTS ==> forall t: nat :: LockedAt(mailboxes[m], t) <==> t < now + LOCK_MS
      ensures mailboxes[m].failures < MAX_ATTEMPTS ==> forall t: nat :: LockedAt(mailboxes[m], t) <==> LockedAt(old(mailboxes[m]), t)
    {
      var row := mailboxes[m];
      var failures := row.failures + 1;
      mailboxes := mailboxes[m := row.(failures := failures,
                                       lockedUntil := if failures >= MAX_ATTEMPTS then Some(now + LOCK_MS) else row.lockedUntil)];
    }

    method ClearFailedLogins(m: Id)
      requires m in mailboxes
      modifies this`mailboxes
      ensures mailboxes == old(mailboxes)[m := Cleared(old(mailboxes[m]))]
      // no lock holds at any time, and all ten attempts are there again
      ensures forall t: nat :: !LockedAt(mailboxes[m], t)
      ensures Allowance(mailboxes[m].failures) == MAX_ATTEMPTS
    {
      mailboxes := mailboxes[m := mailboxes[m].(failures := 0, lockedUntil := None)];
    }

    /** `check` is the time of the lock check, `record` the time of the write that follows the password check. */
    method Login(email: string, correct: bool, check: nat, record: nat) returns (reply: Reply)
      modifies this`mailboxes, this`sessions, this`nextToken
      ensures (Current(), reply) == LoginEffect(old(Current()), email, correct, check, record, ttl)
    {
      var at := LastIndexOf(email, '@');
      if at <= 0 {
        return Unauthorized;
      }
      var address := Address(email[..at], email[at + 1..]);
      if address !in addresses || addresses[address] !in mailboxes {
        return Unauthorized;
      }
      var m := addresses[address];
      var found := mailboxes[m];
      if found.lockedUntil.Some? && found.lockedUntil.value > check {
        return Locked;
      }
      if !found.usable {
        return Forbidden;
      }
      if !correct {
        RegisterFailedLogin(m, record);
        return Unauthorized;
      }
      ClearFailedLogins(m);
      var token := Issue(m, record);
      return Opened(token);
    }

    method Refresh(token: nat, now: nat) returns (reply: Reply)
      modifies this`sessions, this`nextToken
      ensures (Current(), reply) == RefreshEffect(old(Current()), token, now, ttl)
    {
      if token !in sessions || sessions[token].expiresAt <= now {
        return Unauthorized;
      }
      var m := sessions[token].mailbox;
      if m !in mailboxes {
        return Unauthorized;
      }
      if !mailboxes[m].usable {
        return Forbidden;
      }
      sessions := sessions - {token};
      var fresh_ := Issue(m, now);
      return Opened(fresh_);
    }

    method Logout(token: nat)
      modifies this`sessions
      ensures Current() == Revoke(old(Current()), token)
      // the token is refused from now on, and every other one is worth what it was
      ensures forall now: nat :: RefreshEffect(Current(), token, now, ttl) == (Current(), Unauthorized)
      ensures forall t, now: nat | t != token ::
                RefreshEffect(Current(), t, now, ttl).1 == RefreshEffect(old(Current()), t, now, ttl).1
    {
      sessions := sessions - {token};
    }

    method ChangePassword(m: Id, correct: bool) returns (reply: Reply)
      modifies this`mailboxes, this`sessions
      ensures (Current(), reply) == ChangePasswordEffect(old(Current()), m, correct)
    {
      if m !in mailboxes {
        return Unauthorized;
      }
      if !correct {
        return Forbidden;
      }
      ClearFailedLogins(m);
      sessions := map t | t in sessions && sessions[t].mailbox != m :: sessions[t];
      return Done;
    }
  }
}
