/**
 * The delivery notifications of src/internal/mail.controller.ts. Each files one message as it
 * arrives, from the thread its parent's row has at that moment, and redeliveries change nothing.
 */
module Delivery {
  import opened Prelude
  import opened Addresses
  import opened Projection
  import opened Threads
  import opened ThreadedSync

  datatype Message = Message(
    mailbox: Id,
    folder: string,
    messageId: string,
    imapUid: Option<nat>,
    sender: string,
    subject: Option<string>,
    spamScore: Option<int>,
    inReplyTo: Option<string>,
    receivedAt: int)
  {
    function Key(): Key {
      Projection.Key(mailbox, folder, messageId)
    }
  }

  /** A notification as it comes in, before its address is resolved. */
  datatype Report = Report(
    folder: string,
    messageId: string,
    imapUid: Option<nat>,
    sender: string,
    subject: Option<string>,
    spamScore: Option<int>,
    inReplyTo: Option<string>,
    receivedAt: int)
  {
    function For(mailbox: Id): Message {
      Message(mailbox, folder, messageId, imapUid, sender, subject, spamScore, inReplyTo, receivedAt)
    }
  }

  /** The mailbox an address names: none without a local part, or without a row. */
  function Resolved(mailboxes: map<Address, Id>, address: string): Option<Id> {
    var parts :- Split(address);
    if parts in mailboxes then Some(mailboxes[parts]) else None
  }

  /** An address names exactly the mailbox whose local part and domain, joined by an at sign, it is. */
  lemma ResolvesExactly(mailboxes: map<Address, Id>, address: string, mailbox: Id)
    ensures Resolved(mailboxes, address) == Some(mailbox) <==>
              exists a :: && a in mailboxes && mailboxes[a] == mailbox && address == a.localPart + ("@" + a.domainName)
                          && a.localPart != "" && '@' !in a.domainName
  {
    if a :| a in mailboxes && address == a.localPart + ("@" + a.domainName) && a.localPart != "" && '@' !in a.domainName && mailboxes[a] == mailbox {
      SplitAddress(a);
    }
    if Resolved(mailboxes, address) == Some(mailbox) {
      var a := Split(address).value;
      JoinSplit(address);
      SplitHasNoSecondAt(address);
      assert address == a.localPart + ("@" + a.domainName);
    }
  }

  /** The table, and the deliveries announced over the gateway. */
  datatype State = State(rows: Table, nextId: Id, emitted: seq<Key>)

  /** SELECT ... LIMIT 1: the thread column of some row with that Message-ID, or nothing. */
  ghost predicate MayAnswer(t: Table, mailbox: Id, messageId: string, answer: Option<string>) {
    if exists id :: IsCopy(t, id, mailbox, messageId)
    then exists id :: IsCopy(t, id, mailbox, messageId) && t[id].threadId == answer
    else answer == None
  }

  ghost predicate IsCopy(t: Table, id: Id, mailbox: Id, messageId: string) {
    id in t && t[id].mailbox == mailbox && t[id].messageId == messageId
  }

  function ThreadOnArrival(m: Message, answer: Option<string>): string {
    if m.inReplyTo.None? then m.messageId
    else if answer.Some? then answer.value
    else m.inReplyTo.value
  }

  function NewRow(m: Message, answer: Option<string>): Row {
    Row(m.mailbox, m.folder, m.messageId, m.imapUid, m.sender, None, m.subject, m.inReplyTo,
        Some(ThreadOnArrival(m, answer)), m.receivedAt, m.spamScore, false)
  }

  /** INSERT ... ON CONFLICT DO NOTHING, announced only when a row was inserted. */
  ghost function Received(s: State, m: Message, answer: Option<string>): State {
    if Holds(s.rows, m.Key()) then s
    else State(s.rows[s.nextId := NewRow(m, answer)], s.nextId + 1, s.emitted + [m.Key()])
  }

  ghost predicate Step(s: State, m: Message, s': State) {
    exists answer: Option<string> :: StepWith(s, m, s', answer)
  }

  ghost predicate StepWith(s: State, m: Message, s': State, answer: Option<string>) {
    && (m.inReplyTo.Some? ==> MayAnswer(s.rows, m.mailbox, m.inReplyTo.value, answer))
    && s' == Received(s, m, answer)
  }

  datatype Status = UnknownMailbox | AlreadyRecorded | Recorded

  class MailController {
    var rows: Table
    var nextId: Id
    var emitted: seq<Key>
    const mailboxes: map<Address, Id>

    ghost predicate Valid()
      reads this
    {
      UniqueKeys(rows) && Below(rows, nextId)
    }

    ghost function Current(): State
      reads this
    {
      State(rows, nextId, emitted)
    }

    constructor (mailboxes: map<Address, Id>)
      ensures Valid() && Current() == State(map[], 0, []) && this.mailboxes == mailboxes
    {
      this.mailboxes, rows, nextId, emitted := mailboxes, map[], 0, [];
    }

    method ResolveMailbox(address: string) returns (target: Option<Id>)
      ensures target == Resolved(mailboxes, address)
    {
      var at := LastIndexOf(address, '@');
      if at < 1 {
        return None;
      }
      var localPart, domainName := address[..at], address[at + 1..];
      target := if Address(localPart, domainName) in mailboxes then Some(mailboxes[Address(localPart, domainName)]) else None;
    }

    method ThreadOf(mailbox: Id, messageId: string) returns (answer: Option<string>)
      ensures MayAnswer(rows, mailbox, messageId, answer)
    {
      if id :| id in rows && rows[id].mailbox == mailbox && rows[id].messageId == messageId {
        assert IsCopy(rows, id, mailbox, messageId);
        answer := rows[id].threadId;
      } else {
        answer := None;
      }
    }

    method MailReceived(address: string, report: Report) returns (status: Status)
      requires Valid()
      modifies this
      ensures Valid()
      ensures Resolved(mailboxes, address).None? ==> status.UnknownMailbox? && Current() == old(Current())
      ensures Resolved(mailboxes, address).Some? ==>
                var m := report.For(Resolved(mailboxes, address).value);
                && Step(old(Current()), m, Current())
                && status == if Holds(old(rows), m.Key()) then AlreadyRecorded else Recorded
    {
      var target := ResolveMailbox(address);
      if target.None? {
        return UnknownMailbox;
      }
      status := Record(report.For(target.value));
    }

    method Record(m: Message) returns (status: Status)
      requires Valid()
      modifies this
      ensures Valid() && Step(old(Current()), m, Current())
      ensures status == if Holds(old(rows), m.Key()) then AlreadyRecorded else Recorded
    {
      ghost var before := Current();
      var answer: Option<string> := None;
      if m.inReplyTo.Some? {
        answer := ThreadOf(m.mailbox, m.inReplyTo.value);
      }
      if id :| id in rows && KeyOf(rows[id]) == m.Key() {
        status := AlreadyRecorded;
      } else {
        rows := rows[nextId := NewRow(m, answer)];
        nextId := nextId + 1;
        emitted := emitted + [m.Key()];
        status := Recorded;
      }
      assert StepWith(before, m, Current(), answer);
    }
  }

  // ----- Runs of deliveries -----

  /** States before and after each delivery of a run that starts from nothing. */
  ghost predicate IsRun(states: seq<State>, mail: seq<Message>) {
    && |states| == |mail| + 1
    && states[0] == State(map[], 0, [])
    && forall i | 0 <= i < |mail| :: Step(states[i], mail[i], states[i + 1])
  }

  ghost predicate Delivered(mail: seq<Message>, n: nat, mailbox: Id, messageId: string)
    requires n <= |mail|
  {
    exists i | 0 <= i < n :: mail[i].mailbox == mailbox && mail[i].messageId == messageId
  }

  /** What the messages delivered to one mailbox reply to; redelivered copies agree. */
  ghost predicate LinksOf(mail: seq<Message>, mailbox: Id, links: Links) {
    && (forall x | x in links :: Delivered(mail, |mail|, mailbox, x))
    && (forall i | 0 <= i < |mail| :: mail[i].mailbox == mailbox ==>
          mail[i].messageId in links && links[mail[i].messageId] == mail[i].inReplyTo)
  }

  /** A reply whose parent is ever delivered to the mailbox comes after it. */
  ghost predicate ParentsFirst(mail: seq<Message>, mailbox: Id) {
    forall i | 0 <= i < |mail| :: mail[i].mailbox == mailbox && mail[i].inReplyTo.Some? ==>
      Delivered(mail, |mail|, mailbox, mail[i].inReplyTo.value) ==> Delivered(mail, i, mailbox, mail[i].inReplyTo.value)
  }

  // ----- One announcement per message -----

  ghost predicate Announced(s: State, mail: seq<Message>, n: nat)
    requires n <= |mail|
  {
    && UniqueKeys(s.rows) && Below(s.rows, s.nextId)
    && Distinct(s.emitted)
    && (forall k :: k in s.emitted <==> Holds(s.rows, k))
    && (forall k :: Holds(s.rows, k) <==> exists i | 0 <= i < n :: mail[i].Key() == k)
  }

  lemma ReceivedHolds(s: State, m: Message, answer: Option<string>, k: Key)
    requires Below(s.rows, s.nextId)
    ensures Holds(Received(s, m, answer).rows, k) <==> Holds(s.rows, k) || k == m.Key()
  {
    var s' := Received(s, m, answer);
    if !Holds(s.rows, m.Key()) {
      assert KeyOf(s'.rows[s.nextId]) == m.Key();
      if id :| id in s.rows && KeyOf(s.rows[id]) == k {
        assert KeyOf(s'.rows[id]) == k;
      }
    }
  }

  /** Exactly one announcement and one row per distinct message of the run, however often it was redelivered. */
  lemma {:induction false} OneAnnouncementEach(states: seq<State>, mail: seq<Message>, n: nat)
    requires IsRun(states, mail) && n <= |mail|
    ensures Announced(states[n], mail, n)
    decreases n
  {
    if n > 0 {
      OneAnnouncementEach(states, mail, n - 1);
      var s, m := states[n - 1], mail[n - 1];
      assert Step(s, m, states[n]);
      var answer: Option<string> :| StepWith(s, m, states[n], answer);
      forall k
        ensures Holds(states[n].rows, k) <==> exists i | 0 <= i < n :: mail[i].Key() == k
        ensures k in states[n].emitted <==> Holds(states[n].rows, k)
      {
        ReceivedHolds(s, m, answer, k);
        assert Holds(s.rows, k) <==> exists i | 0 <= i < n - 1 :: mail[i].Key() == k;
        assert mail[n - 1].Key() == m.Key();
      }
      AnnouncedOnce(s, m, answer);
    }
  }

  lemma AnnouncedOnce(s: State, m: Message, answer: Option<string>)
    requires UniqueKeys(s.rows) && Below(s.rows, s.nextId) && Distinct(s.emitted)
    requires forall k :: k in s.emitted <==> Holds(s.rows, k)
    ensures var s' := Received(s, m, answer);
            UniqueKeys(s'.rows) && Below(s'.rows, s'.nextId) && Distinct(s'.emitted)
  {
    if !Holds(s.rows, m.Key()) {
      forall i | 0 <= i < |s.emitted|
        ensures s.emitted[i] != m.Key()
      {
        assert s.emitted[i] in s.emitted;
      }
      forall id | id in s.rows
        ensures KeyOf(s.rows[id]) != m.Key()
      {
      }
    }
  }

  // ----- What a delivery records -----

  /** The row of a delivered message: its columns as reported, unread. */
  predicate Records(row: Row, m: Message) {
    && row.mailbox == m.mailbox && row.folder == m.folder && row.messageId == m.messageId
    && row.imapUid == m.imapUid && row.sender == m.sender && row.recipient == None && row.subject == m.subject
    && row.inReplyTo == m.inReplyTo && row.receivedAt == m.receivedAt && row.spamScore == m.spamScore && !row.read
    && row.threadId.Some?
  }

  /** A delivery adds the row of its message, and announces it, just when its place in the mailbox holds none yet; no row
      that is there changes. A message that replies to nothing starts a thread of its own. */
  lemma DeliveryRecords(s: State, m: Message, s': State)
    requires Below(s.rows, s.nextId) && Step(s, m, s')
    ensures forall id | id in s.rows :: id in s'.rows && s'.rows[id] == s.rows[id]
    ensures if exists id :: id in s.rows && s.rows[id].mailbox == m.mailbox && s.rows[id].folder == m.folder && s.rows[id].messageId == m.messageId
            then s' == s
            else && (forall id :: id in s'.rows <==> id in s.rows || id == s.nextId) && s.nextId < s'.nextId
                 && Records(s'.rows[s.nextId], m)
                 && (m.inReplyTo.None? ==> s'.rows[s.nextId].threadId == Some(m.messageId))
                 && s'.emitted == s.emitted + [Key(m.mailbox, m.folder, m.messageId)]
  {
    var answer: Option<string> :| StepWith(s, m, s', answer);
    if Holds(s.rows, m.Key()) {
      var id :| id in s.rows && KeyOf(s.rows[id]) == m.Key();
      assert s.rows[id].messageId == m.messageId;
    }
  }

  /** A report names the message of the mailbox its address resolves to, column by column. */
  lemma ReportIsMessage(report: Report, mailbox: Id)
    ensures var m := report.For(mailbox);
            && m.mailbox == mailbox && m.folder == report.folder && m.messageId == report.messageId && m.imapUid == report.imapUid
            && m.sender == report.sender && m.subject == report.subject && m.spamScore == report.spamScore
            && m.inReplyTo == report.inReplyTo && m.receivedAt == report.receivedAt
  {
  }

  // ----- Threads reach their top at once -----

  ghost predicate AtTop(links: Links, row: Row) {
    row.threadId.Some? && exists h: nat :: TopWithin(links, row.messageId, h, row.threadId.value)
  }

  ghost predicate AllAtTop(t: Table, mailbox: Id, links: Links) {
    forall id | id in t && t[id].mailbox == mailbox :: AtTop(links, t[id])
  }

  /** A child of a message at its top, or of one never seen, is at its top. */
  lemma ChildAtTop(links: Links, x: string, p: string, h: nat, top: string)
    requires x in links && links[x] == Some(p) && TopWithin(links, p, h, top)
    ensures TopWithin(links, x, h + 1, top)
  {
  }

  lemma DeliveredAtTop(s: State, m: Message, answer: Option<string>, links: Links)
    requires AllAtTop(s.rows, m.mailbox, links)
    requires m.messageId in links && links[m.messageId] == m.inReplyTo
    requires m.inReplyTo.Some? ==> MayAnswer(s.rows, m.mailbox, m.inReplyTo.value, answer)
    requires m.inReplyTo.Some? && m.inReplyTo.value in links ==> exists id :: IsCopy(s.rows, id, m.mailbox, m.inReplyTo.value)
    ensures AtTop(links, NewRow(m, answer))
  {
    var row := NewRow(m, answer);
    if m.inReplyTo.None? {
      assert TopWithin(links, m.messageId, 0, m.messageId);
    } else {
      var p := m.inReplyTo.value;
      if exists id :: IsCopy(s.rows, id, m.mailbox, p) {
        var id :| IsCopy(s.rows, id, m.mailbox, p) && s.rows[id].threadId == answer;
        assert AtTop(links, s.rows[id]);
        var h: nat :| TopWithin(links, p, h, answer.value);
        ChildAtTop(links, m.messageId, p, h, answer.value);
      } else {
        assert TopWithin(links, p, 0, p);
        ChildAtTop(links, m.messageId, p, 0, p);
      }
    }
  }

  lemma DeliveredHasCopy(states: seq<State>, mail: seq<Message>, n: nat, mailbox: Id, p: string)
    requires IsRun(states, mail) && n <= |mail| && Delivered(mail, n, mailbox, p)
    ensures exists id :: IsCopy(states[n].rows, id, mailbox, p)
  {
    OneAnnouncementEach(states, mail, n);
    var i :| 0 <= i < n && mail[i].mailbox == mailbox && mail[i].messageId == p;
    assert Holds(states[n].rows, mail[i].Key());
    var id :| id in states[n].rows && KeyOf(states[n].rows[id]) == mail[i].Key();
    assert IsCopy(states[n].rows, id, mailbox, p);
  }

  /** When parents arrive first, every row of every state carries its topmost ancestor. */
  lemma {:induction false} DeliveriesReachTheTop(states: seq<State>, mail: seq<Message>, n: nat, mailbox: Id, links: Links)
    requires IsRun(states, mail) && n <= |mail| && LinksOf(mail, mailbox, links) && ParentsFirst(mail, mailbox)
    ensures AllAtTop(states[n].rows, mailbox, links)
    decreases n
  {
    if n > 0 {
      DeliveriesReachTheTop(states, mail, n - 1, mailbox, links);
      var s, m := states[n - 1], mail[n - 1];
      assert Step(s, m, states[n]);
      var answer: Option<string> :| StepWith(s, m, states[n], answer);
      if m.mailbox == mailbox {
        if m.inReplyTo.Some? && m.inReplyTo.value in links {
          assert Delivered(mail, n - 1, mailbox, m.inReplyTo.value);
          DeliveredHasCopy(states, mail, n - 1, mailbox, m.inReplyTo.value);
        }
        DeliveredAtTop(s, m, answer, links);
      }
    }
  }

  // ----- A later sync agrees -----

  lemma ShownAtTop(t: Table, mailbox: Id, links: Links, folder: string, usable: seq<ImapMessage>, parents: map<string, string>, t': Table)
    requires AllAtTop(t, mailbox, links) && ThreadsFound(t, mailbox, ParentIds(usable), parents)
    requires forall x | x in links :: exists id :: IsCopy(t, id, mailbox, x)
    requires forall m | m in usable :: m.messageId in links && links[m.messageId] == m.inReplyTo
    requires FolderShows(t', mailbox, folder, usable, parents) && SameElsewhere(t, t', mailbox, folder)
    ensures AllAtTop(t', mailbox, links)
  {
    forall id | id in t' && t'[id].mailbox == mailbox
      ensures AtTop(links, t'[id])
    {
      if t'[id].folder == folder {
        var m :| m in usable && Shows(t'[id], m, parents);
        assert m.inReplyTo.Some? ==> m.inReplyTo.value in ParentIds(usable);
        SyncedAtTop(t, mailbox, links, ParentIds(usable), parents, m, t'[id]);
      }
    }
  }

  /** A sync of messages the deliveries brought files every row where its delivery did. */
  lemma SyncKeepsDeliveredThreads(t: Table, mailbox: Id, links: Links, folder: string, listing: seq<ImapMessage>, t': Table)
    requires UniqueKeys(t) && AllAtTop(t, mailbox, links)
    requires forall x | x in links :: exists id :: IsCopy(t, id, mailbox, x)
    requires forall m | m in Usable(listing) :: m.messageId in links && links[m.messageId] == m.inReplyTo
    requires Sync(mailbox, t, folder, listing, t')
    ensures AllAtTop(t', mailbox, links)
    ensures forall id | id in t && id in t' && t[id].mailbox == mailbox :: t'[id].threadId == t[id].threadId
  {
    var next: Id, parents: map<string, string> :| SyncWith(mailbox, t, folder, listing, t', next, parents);
    SyncMirrors(t, next, mailbox, folder, listing, parents);
    SyncShows(mailbox, t, folder, listing, t', next, parents);
    ShownAtTop(t, mailbox, links, folder, Usable(listing), parents, t');
    forall id | id in t && id in t' && t[id].mailbox == mailbox
      ensures t'[id].threadId == t[id].threadId
    {
      assert SameOrigin(t[id], t'[id]);
      SameTop(links, t[id], t'[id]);
    }
  }

  lemma SyncedAtTop(t: Table, mailbox: Id, links: Links, asked: set<string>, parents: map<string, string>, m: ImapMessage, row: Row)
    requires AllAtTop(t, mailbox, links) && ThreadsFound(t, mailbox, asked, parents)
    requires forall x | x in links :: exists id :: IsCopy(t, id, mailbox, x)
    requires m.messageId in links && links[m.messageId] == m.inReplyTo
    requires m.inReplyTo.Some? ==> m.inReplyTo.value in asked
    requires Shows(row, m, parents)
    ensures AtTop(links, row)
  {
    if m.inReplyTo.None? {
      assert TopWithin(links, m.messageId, 0, m.messageId);
    } else {
      var p := m.inReplyTo.value;
      if p in parents {
        var id :| id in t && HasThread(t[id], mailbox, p, parents[p]);
        assert AtTop(links, t[id]);
        var h: nat :| TopWithin(links, p, h, parents[p]);
        ChildAtTop(links, m.messageId, p, h, parents[p]);
      } else {
        if p in links {
          KnownParentFound(t, mailbox, links, asked, parents, p);
        }
        assert TopWithin(links, p, 0, p);
        ChildAtTop(links, m.messageId, p, 0, p);
      }
    }
  }

  lemma KnownParentFound(t: Table, mailbox: Id, links: Links, asked: set<string>, parents: map<string, string>, p: string)
    requires AllAtTop(t, mailbox, links) && ThreadsFound(t, mailbox, asked, parents)
    requires p in asked && exists id :: IsCopy(t, id, mailbox, p)
    ensures p in parents
  {
    var id :| IsCopy(t, id, mailbox, p);
    assert AtTop(links, t[id]);
  }

  lemma SameTop(links: Links, a: Row, b: Row)
    requires AtTop(links, a) && AtTop(links, b) && a.messageId == b.messageId
    ensures a.threadId == b.threadId
  {
    var g: nat :| TopWithin(links, a.messageId, g, a.threadId.value);
    var h: nat :| TopWithin(links, b.messageId, h, b.threadId.value);
    TopIsUnique(links, a.messageId, g, h, a.threadId.value, b.threadId.value);
  }

  /** The listing holds only messages the run delivered to the mailbox, as they were delivered. */
  ghost predicate OnlyDelivered(mail: seq<Message>, mailbox: Id, usable: seq<ImapMessage>) {
    forall m | m in usable :: exists i | 0 <= i < |mail| :: SameMessage(mail[i], mailbox, m)
  }

  ghost predicate SameMessage(d: Message, mailbox: Id, m: ImapMessage) {
    d.mailbox == mailbox && d.messageId == m.messageId && d.inReplyTo == m.inReplyTo
  }

  /** After any run that delivers parents first, a sync of a folder in which every listed message was
      delivered changes no thread, and leaves every row of the mailbox at its topmost ancestor. */
  lemma DeliveredThreadsSurviveSync(states: seq<State>, mail: seq<Message>, mailbox: Id, links: Links,
                                    folder: string, listing: seq<ImapMessage>, t': Table)
    requires IsRun(states, mail) && LinksOf(mail, mailbox, links) && ParentsFirst(mail, mailbox)
    requires OnlyDelivered(mail, mailbox, Usable(listing))
    requires Sync(mailbox, states[|mail|].rows, folder, listing, t')
    ensures AllAtTop(t', mailbox, links)
    ensures forall id | id in states[|mail|].rows && id in t' && states[|mail|].rows[id].mailbox == mailbox ::
              t'[id].threadId == states[|mail|].rows[id].threadId
  {
    var t := states[|mail|].rows;
    OneAnnouncementEach(states, mail, |mail|);
    DeliveriesReachTheTop(states, mail, |mail|, mailbox, links);
    forall x | x in links
      ensures exists id :: IsCopy(t, id, mailbox, x)
    {
      DeliveredHasCopy(states, mail, |mail|, mailbox, x);
    }
    SyncKeepsDeliveredThreads(t, mailbox, links, folder, listing, t');
  }

  // ----- Two messages replying to each other, delivered -----

  /** Every row of the mailbox is filed under this thread. */
  ghost predicate AllUnder(t: Table, mailbox: Id, thread: string) {
    forall id | id in t && t[id].mailbox == mailbox :: t[id].threadId == Some(thread)
  }

  lemma FirstOfPair(s: State, m: Message, s': State)
    requires s == State(map[], 0, []) && Step(s, m, s') && m.inReplyTo.Some?
    ensures s'.rows == map[0 := s'.rows[0]] && KeyOf(s'.rows[0]) == m.Key() && s'.rows[0].threadId == m.inReplyTo
  {
    var answer: Option<string> :| StepWith(s, m, s', answer);
  }

  lemma SecondOfPair(s: State, m: Message, s': State, thread: string)
    requires UniqueKeys(s.rows) && AllUnder(s.rows, m.mailbox, thread) && Step(s, m, s')
    requires m.inReplyTo.Some? && exists id :: IsCopy(s.rows, id, m.mailbox, m.inReplyTo.value)
    ensures AllUnder(s'.rows, m.mailbox, thread)
  {
    var answer: Option<string> :| StepWith(s, m, s', answer);
    var id :| IsCopy(s.rows, id, m.mailbox, m.inReplyTo.value) && s.rows[id].threadId == answer;
  }

  /** Two messages replying to each other that are delivered end up in one thread, the later one's, at once. */
  lemma DeliveredPairShareThread(states: seq<State>, mail: seq<Message>)
    requires IsRun(states, mail) && |mail| == 2 && mail[0].mailbox == mail[1].mailbox
    requires mail[0].inReplyTo == Some(mail[1].messageId) && mail[1].inReplyTo == Some(mail[0].messageId)
    ensures UniqueKeys(states[2].rows) && AllUnder(states[2].rows, mail[0].mailbox, mail[1].messageId)
    ensures exists id :: IsCopy(states[2].rows, id, mail[0].mailbox, mail[0].messageId)
    ensures exists id :: IsCopy(states[2].rows, id, mail[0].mailbox, mail[1].messageId)
  {
    assert Step(states[0], mail[0], states[1]) && Step(states[1], mail[1], states[2]);
    FirstOfPair(states[0], mail[0], states[1]);
    assert IsCopy(states[1].rows, 0, mail[0].mailbox, mail[0].messageId);
    OneAnnouncementEach(states, mail, 1);
    OneAnnouncementEach(states, mail, 2);
    SecondOfPair(states[1], mail[1], states[2], mail[1].messageId);
    DeliveredHasCopy(states, mail, 2, mail[0].mailbox, mail[0].messageId);
    DeliveredHasCopy(states, mail, 2, mail[0].mailbox, mail[1].messageId);
  }

  /** A listing in which every message replies to one that has a row. */
  ghost predicate RepliesToKnown(t: Table, mailbox: Id, usable: seq<ImapMessage>) {
    forall m | m in usable :: m.inReplyTo.Some? && exists id :: IsCopy(t, id, mailbox, m.inReplyTo.value)
  }

  lemma ReplyKeepsThread(t: Table, mailbox: Id, usable: seq<ImapMessage>, parents: map<string, string>, m: ImapMessage, thread: string)
    requires AllUnder(t, mailbox, thread) && RepliesToKnown(t, mailbox, usable) && m in usable
    requires ThreadsFound(t, mailbox, ParentIds(usable), parents)
    ensures ThreadFor(m.messageId, m.inReplyTo, parents) == thread
  {
    var p := m.inReplyTo.value;
    assert p in ParentIds(usable);
    var id :| IsCopy(t, id, mailbox, p);
    assert p in parents;
    var at :| at in t && HasThread(t[at], mailbox, p, parents[p]);
  }

  /** A mailbox filed under one thread stays under it through a sync whose messages all reply to known ones. */
  lemma SharedThreadIsSteady(t: Table, mailbox: Id, folder: string, listing: seq<ImapMessage>, t': Table, thread: string)
    requires UniqueKeys(t) && AllUnder(t, mailbox, thread) && RepliesToKnown(t, mailbox, Usable(listing))
    requires Sync(mailbox, t, folder, listing, t')
    ensures AllUnder(t', mailbox, thread)
  {
    var next: Id, parents: map<string, string> :| SyncWith(mailbox, t, folder, listing, t', next, parents);
    SyncShows(mailbox, t, folder, listing, t', next, parents);
    forall id | id in t' && t'[id].mailbox == mailbox
      ensures t'[id].threadId == Some(thread)
    {
      if t'[id].folder == folder {
        var m :| m in Usable(listing) && Shows(t'[id], m, parents);
        ReplyKeepsThread(t, mailbox, Usable(listing), parents, m, thread);
      }
    }
  }

  /** So, delivered rather than synced from nothing, a mutual pair is steady: no sync of it moves a thread. */
  lemma DeliveredPairIsSteady(states: seq<State>, mail: seq<Message>, folder: string, listing: seq<ImapMessage>, t': Table)
    requires IsRun(states, mail) && |mail| == 2 && mail[0].mailbox == mail[1].mailbox
    requires mail[0].inReplyTo == Some(mail[1].messageId) && mail[1].inReplyTo == Some(mail[0].messageId)
    requires OnlyDelivered(mail, mail[0].mailbox, Usable(listing))
    requires Sync(mail[0].mailbox, states[2].rows, folder, listing, t')
    ensures AllUnder(states[2].rows, mail[0].mailbox, mail[1].messageId)
    ensures AllUnder(t', mail[0].mailbox, mail[1].messageId)
  {
    DeliveredPairShareThread(states, mail);
    SharedThreadIsSteady(states[2].rows, mail[0].mailbox, folder, listing, t', mail[1].messageId);
  }
}
