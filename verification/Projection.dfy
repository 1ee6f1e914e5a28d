/**
 * The received_message table as a cache of the IMAP server: src/messages/message.repository.ts
 * and the folder sync of src/messages/message.service.ts.
 */
module Projection {
  import opened Prelude
  import opened KeepBest

  datatype ImapMessage = ImapMessage(
    uid: nat,
    messageId: string,
    from: string,
    to: seq<string>,
    subject: Option<string>,
    inReplyTo: Option<string>,
    date: int,
    seen: bool)

  datatype Row = Row(
    mailbox: Id,
    folder: string,
    messageId: string,
    imapUid: Option<nat>,
    sender: string,
    recipient: Option<string>,
    subject: Option<string>,
    inReplyTo: Option<string>,
    threadId: Option<string>,
    receivedAt: int,
    spamScore: Option<int>,
    read: bool)
  {
    predicate In(m: Id, f: string) {
      mailbox == m && folder == f
    }
  }

  type Table = map<Id, Row>

  datatype Key = Key(mailbox: Id, folder: string, messageId: string)

  function KeyOf(row: Row): Key {
    Key(row.mailbox, row.folder, row.messageId)
  }

  /** The unique index uq_received_message_mailbox_folder_message_id. */
  predicate UniqueKeys(t: Table) {
    forall i, j | i in t && j in t :: KeyOf(t[i]) == KeyOf(t[j]) ==> i == j
  }

  ghost predicate Below(t: Table, next: Id) {
    forall id | id in t :: id < next
  }

  ghost predicate Holds(t: Table, k: Key) {
    exists id :: id in t && KeyOf(t[id]) == k
  }

  // ----- De-duplication of a listing -----

  const MESSAGE_ID := (m: ImapMessage) => m.messageId
  const UID := (m: ImapMessage) => m.uid

  function Identified(listing: seq<ImapMessage>): seq<ImapMessage>
  {
    if listing == [] then []
    else (if listing[0].messageId == "" then [] else [listing[0]]) + Identified(listing[1..])
  }

  /** What a listing leaves to record: identified messages, the highest uid of each Message-ID. */
  function Usable(listing: seq<ImapMessage>): seq<ImapMessage> {
    Best(Identified(listing), MESSAGE_ID, UID)
  }

  lemma {:induction false} IdentifiedMember(listing: seq<ImapMessage>, m: ImapMessage)
    ensures m in Identified(listing) <==> m in listing && m.messageId != ""
  {
    if listing != [] {
      assert listing == [listing[0]] + listing[1..];
      IdentifiedMember(listing[1..], m);
    }
  }

  /** Exactly one usable message per non-empty Message-ID of the listing, of the highest uid. */
  lemma UsableMessages(listing: seq<ImapMessage>)
    ensures DistinctKeys(Usable(listing), MESSAGE_ID)
    ensures forall m | m in Usable(listing) ::
              m in listing && m.messageId != ""
              && forall o | o in listing :: o.messageId == m.messageId ==> o.uid <= m.uid
    ensures forall o | o in listing :: o.messageId != "" ==> HasKey(Usable(listing), o.messageId, MESSAGE_ID)
  {
    var rows, usable := Identified(listing), Usable(listing);
    BestIsBest(rows, MESSAGE_ID, UID);
    forall m | m in usable
      ensures m in listing && m.messageId != ""
      ensures forall o | o in listing :: o.messageId == m.messageId ==> o.uid <= m.uid
    {
      var i :| 0 <= i < |usable| && usable[i] == m;
      assert IsBest(rows, usable[i], MESSAGE_ID, UID);
      IdentifiedMember(listing, m);
      forall o | o in listing && o.messageId == m.messageId
        ensures o.uid <= m.uid
      {
        IdentifiedMember(listing, o);
        assert MESSAGE_ID(o) == MESSAGE_ID(m) && UID(o) == o.uid;
      }
    }
    forall o | o in listing && o.messageId != ""
      ensures HasKey(usable, o.messageId, MESSAGE_ID)
    {
      IdentifiedMember(listing, o);
      assert MESSAGE_ID(o) == o.messageId;
    }
  }

  // ----- Threads -----

  /** The thread a message is filed under, given the threads of the parents asked for. */
  function ThreadFor(messageId: string, inReplyTo: Option<string>, parents: map<string, string>): string {
    if inReplyTo.None? then messageId
    else if inReplyTo.value in parents then parents[inReplyTo.value]
    else inReplyTo.value
  }

  function ParentIds(usable: seq<ImapMessage>): set<string> {
    set m | m in usable && m.inReplyTo.Some? :: m.inReplyTo.value
  }

  /** What threadsOf may answer: for each parent with a threaded row, the thread of one such row. */
  ghost predicate ThreadsFound(t: Table, mailbox: Id, asked: set<string>, parents: map<string, string>) {
    && (forall p | p in parents ::
          p in asked && exists id :: id in t && HasThread(t[id], mailbox, p, parents[p]))
    && forall id | id in t :: t[id].mailbox == mailbox && t[id].messageId in asked && t[id].threadId.Some?
                              ==> t[id].messageId in parents
  }

  ghost predicate HasThread(row: Row, mailbox: Id, messageId: string, thread: string) {
    row.mailbox == mailbox && row.messageId == messageId && row.threadId == Some(thread)
  }

  // ----- Upsert and prune -----

  function RowFor(mailbox: Id, folder: string, m: ImapMessage, parents: map<string, string>): Row {
    Row(mailbox, folder, m.messageId, Some(m.uid), m.from, if m.to == [] then None else Some(m.to[0]),
        m.subject, m.inReplyTo, Some(ThreadFor(m.messageId, m.inReplyTo, parents)), m.date, None, m.seen)
  }

  /** ON CONFLICT DO UPDATE: the listed columns come from the new row, the others stay. */
  function Merge(old_: Row, new_: Row): Row {
    old_.(folder := new_.folder, imapUid := new_.imapUid, read := new_.read, recipient := new_.recipient,
          subject := new_.subject, inReplyTo := new_.inReplyTo, threadId := new_.threadId)
  }

  ghost function UpsertOne(t: Table, id: Id, row: Row): Table {
    if Holds(t, KeyOf(row)) then
      var at :| at in t && KeyOf(t[at]) == KeyOf(row);
      t[at := Merge(t[at], row)]
    else t[id := row]
  }

  ghost function UpsertAll(t: Table, next: Id, rows: seq<Row>): Table
    decreases |rows|
  {
    if rows == [] then t else UpsertAll(UpsertOne(t, next, rows[0]), next + 1, rows[1..])
  }

  ghost predicate DistinctRowKeys(rows: seq<Row>) {
    forall i, j | 0 <= i < j < |rows| :: KeyOf(rows[i]) != KeyOf(rows[j])
  }

  function Prune(t: Table, mailbox: Id, folder: string, keep: seq<string>): Table {
    map id | id in t && (t[id].In(mailbox, folder) ==> t[id].messageId in keep) :: t[id]
  }

  function Batch(mailbox: Id, folder: string, usable: seq<ImapMessage>, parents: map<string, string>): (rows: seq<Row>)
    ensures |rows| == |usable|
    ensures forall i | 0 <= i < |usable| :: rows[i] == RowFor(mailbox, folder, usable[i], parents)
  {
    seq(|usable|, i requires 0 <= i < |usable| => RowFor(mailbox, folder, usable[i], parents))
  }

  function MessageIds(rows: seq<Row>): (ids: seq<string>)
    ensures |ids| == |rows|
    ensures forall i | 0 <= i < |rows| :: ids[i] == rows[i].messageId
  {
    seq(|rows|, i requires 0 <= i < |rows| => rows[i].messageId)
  }

  /** The table after a successful sync of one folder. */
  ghost function Synced(t: Table, next: Id, mailbox: Id, folder: string, listing: seq<ImapMessage>, parents: map<string, string>): Table {
    var batch := Batch(mailbox, folder, Usable(listing), parents);
    Prune(UpsertAll(t, next, batch), mailbox, folder, MessageIds(batch))
  }

  // ----- What an upsert of distinct keys does -----

  /** One row merged into the row of its key, or added under the next id. */
  ghost predicate OneUpserted(t: Table, id: Id, row: Row, t': Table) {
    && UniqueKeys(t') && Below(t', id + 1)
    && t'.Keys == t.Keys + (if Holds(t, KeyOf(row)) then {} else {id})
    && (forall i | i in t :: t'[i] == if KeyOf(t[i]) == KeyOf(row) then Merge(t[i], row) else t[i])
    && (!Holds(t, KeyOf(row)) ==> t'[id] == row)
    && Holds(t', KeyOf(row))
  }

  lemma UpsertOneEffect(t: Table, id: Id, row: Row)
    requires UniqueKeys(t) && Below(t, id)
    ensures OneUpserted(t, id, row, UpsertOne(t, id, row))
  {
    var t' := UpsertOne(t, id, row);
    if Holds(t, KeyOf(row)) {
      var at :| at in t && KeyOf(t[at]) == KeyOf(row) && t' == t[at := Merge(t[at], row)];
      assert KeyOf(t'[at]) == KeyOf(row);
    } else {
      assert KeyOf(t'[id]) == KeyOf(row);
    }
  }

  ghost predicate Touches(rows: seq<Row>, k: Key) {
    exists i | 0 <= i < |rows| :: KeyOf(rows[i]) == k
  }

  /** An old row after a batch: merged with the batch row of its key, or as it was. */
  ghost predicate RowAfter(old_: Row, rows: seq<Row>, new_: Row) {
    if Touches(rows, KeyOf(old_)) then
      exists i | 0 <= i < |rows| :: KeyOf(rows[i]) == KeyOf(old_) && new_ == Merge(old_, rows[i])
    else new_ == old_
  }

  /** Each old row after the batch, each unmatched batch row added, nothing else. */
  ghost predicate Upserted(t: Table, next: Id, rows: seq<Row>, t': Table) {
    && UniqueKeys(t')
    && Below(t', next + |rows|)
    && (forall id | id in t :: id in t' && RowAfter(t[id], rows, t'[id]))
    && (forall id | id in t' && id !in t :: id >= next && t'[id] in rows)
    && (forall r | r in rows :: Holds(t', KeyOf(r)))
  }

  lemma RowAfterCons(old_: Row, mid: Row, row: Row, rest: seq<Row>, new_: Row)
    requires DistinctRowKeys([row] + rest)
    requires mid == if KeyOf(old_) == KeyOf(row) then Merge(old_, row) else old_
    requires RowAfter(mid, rest, new_)
    ensures RowAfter(old_, [row] + rest, new_)
  {
    var rows := [row] + rest;
    assert rows[0] == row && KeyOf(mid) == KeyOf(old_);
    forall k | 0 <= k < |rest|
      ensures rows[k + 1] == rest[k] && KeyOf(rest[k]) != KeyOf(row)
    {
      assert KeyOf(rows[0]) != KeyOf(rows[k + 1]);
    }
    if Touches(rest, KeyOf(mid)) {
      var i :| 0 <= i < |rest| && KeyOf(rest[i]) == KeyOf(mid) && new_ == Merge(mid, rest[i]);
      assert KeyOf(rows[i + 1]) == KeyOf(old_) && new_ == Merge(old_, rows[i + 1]);
    }
  }

  lemma RestDistinct(row: Row, rest: seq<Row>)
    requires DistinctRowKeys([row] + rest)
    ensures DistinctRowKeys(rest) && !Touches(rest, KeyOf(row))
  {
    var rows := [row] + rest;
    assert forall k | 0 <= k < |rest| :: rows[k + 1] == rest[k];
    forall i, j | 0 <= i < j < |rest|
      ensures KeyOf(rest[i]) != KeyOf(rest[j])
    {
      assert KeyOf(rows[i + 1]) != KeyOf(rows[j + 1]);
    }
    forall k | 0 <= k < |rest|
      ensures KeyOf(rest[k]) != KeyOf(row)
    {
      assert KeyOf(rows[0]) != KeyOf(rows[k + 1]);
    }
  }

  lemma UpsertedConsNew(t: Table, next: Id, row: Row, t1: Table, rest: seq<Row>, t': Table)
    requires UniqueKeys(t) && Below(t, next) && DistinctRowKeys([row] + rest)
    requires OneUpserted(t, next, row, t1) && Upserted(t1, next + 1, rest, t')
    ensures forall id | id in t' && id !in t :: id >= next && t'[id] in [row] + rest
    ensures Holds(t', KeyOf(row))
  {
    RestDistinct(row, rest);
    var at :| at in t1 && KeyOf(t1[at]) == KeyOf(row);
    assert RowAfter(t1[at], rest, t'[at]);
    assert KeyOf(t'[at]) == KeyOf(row);
    forall id | id in t' && id !in t
      ensures id >= next && t'[id] in [row] + rest
    {
      if id in t1 {
        assert id == next && RowAfter(t1[next], rest, t'[next]);
      }
    }
  }

  lemma UpsertedCons(t: Table, next: Id, row: Row, t1: Table, rest: seq<Row>, t': Table)
    requires UniqueKeys(t) && Below(t, next) && DistinctRowKeys([row] + rest)
    requires OneUpserted(t, next, row, t1) && Upserted(t1, next + 1, rest, t')
    ensures Upserted(t, next, [row] + rest, t')
  {
    forall id | id in t
      ensures id in t' && RowAfter(t[id], [row] + rest, t'[id])
    {
      RowAfterCons(t[id], t1[id], row, rest, t'[id]);
    }
    UpsertedConsNew(t, next, row, t1, rest, t');
  }

  lemma UpsertedNothing(t: Table, next: Id)
    requires UniqueKeys(t) && Below(t, next)
    ensures Upserted(t, next, [], t)
  {
  }

  lemma {:induction false} UpsertAllEffect(t: Table, next: Id, rows: seq<Row>)
    requires UniqueKeys(t) && Below(t, next) && DistinctRowKeys(rows)
    ensures Upserted(t, next, rows, UpsertAll(t, next, rows))
    decreases |rows|
  {
    if rows == [] {
      UpsertedNothing(t, next);
    } else {
      var row, rest := rows[0], rows[1..];
      var t1 := UpsertOne(t, next, row);
      assert rows == [row] + rest;
      RestDistinct(row, rest);
      UpsertOneEffect(t, next, row);
      UpsertAllEffect(t1, next + 1, rest);
      UpsertedCons(t, next, row, t1, rest, UpsertAll(t1, next + 1, rest));
    }
  }

  // ----- What a sync leaves behind -----

  /** The columns a sync copies from the listing. */
  ghost predicate Carries(row: Row, m: ImapMessage) {
    && row.messageId == m.messageId
    && row.imapUid == Some(m.uid)
    && row.read == m.seen
    && row.subject == m.subject
    && row.recipient == (if m.to == [] then None else Some(m.to[0]))
    && row.inReplyTo == m.inReplyTo
  }

  ghost predicate Shows(row: Row, m: ImapMessage, parents: map<string, string>) {
    && Carries(row, m)
    && row.threadId == Some(ThreadFor(m.messageId, m.inReplyTo, parents))
  }

  /** A row written for the first time takes every column from its place and its message. */
  ghost predicate Records(row: Row, mailbox: Id, folder: string, m: ImapMessage, parents: map<string, string>) {
    && row.mailbox == mailbox && row.folder == folder
    && Shows(row, m, parents)
    && row.sender == m.from
    && row.receivedAt == m.date
    && row.spamScore == None
  }

  /** The columns only the first recording writes. */
  ghost predicate SameOrigin(a: Row, b: Row) {
    && KeyOf(a) == KeyOf(b)
    && a.sender == b.sender
    && a.receivedAt == b.receivedAt
    && a.spamScore == b.spamScore
  }

  ghost predicate Mirrors(t: Table, t': Table, mailbox: Id, folder: string, usable: seq<ImapMessage>, parents: map<string, string>) {
    && UniqueKeys(t')
    // the folder holds one row per usable message, showing it
    && (forall id | id in t' && t'[id].In(mailbox, folder) ::
          exists m :: m in usable && Shows(t'[id], m, parents))
    && (forall m | m in usable :: Holds(t', Key(mailbox, folder, m.messageId)))
    // rows that survive keep their id and origin; only listed ones survive
    && (forall id | id in t && t[id].In(mailbox, folder) ::
          id in t' <==> HasKey(usable, t[id].messageId, MESSAGE_ID))
    && (forall id | id in t && id in t' :: SameOrigin(t[id], t'[id]))
    // other folders and mailboxes are as they were
    && (forall id | id in t && !t[id].In(mailbox, folder) :: id in t' && t'[id] == t[id])
    && (forall id | id in t' && id !in t :: exists m :: m in usable && Records(t'[id], mailbox, folder, m, parents))
  }

  lemma BatchFacts(mailbox: Id, folder: string, usable: seq<ImapMessage>, parents: map<string, string>)
    requires DistinctKeys(usable, MESSAGE_ID)
    ensures var batch := Batch(mailbox, folder, usable, parents);
            && DistinctRowKeys(batch)
            && (forall r | r in batch :: exists m :: m in usable && Records(r, mailbox, folder, m, parents))
            && (forall id :: id in MessageIds(batch) <==> HasKey(usable, id, MESSAGE_ID))
            && (forall k :: Touches(batch, k) <==> k.mailbox == mailbox && k.folder == folder && HasKey(usable, k.messageId, MESSAGE_ID))
  {
    var batch := Batch(mailbox, folder, usable, parents);
    forall r | r in batch
      ensures exists m :: m in usable && Records(r, mailbox, folder, m, parents)
    {
      var i :| 0 <= i < |batch| && batch[i] == r;
      assert Records(r, mailbox, folder, usable[i], parents);
    }
    forall i, j | 0 <= i < j < |batch|
      ensures KeyOf(batch[i]) != KeyOf(batch[j])
    {
      assert MESSAGE_ID(usable[i]) != MESSAGE_ID(usable[j]);
    }
    forall id
      ensures id in MessageIds(batch) <==> HasKey(usable, id, MESSAGE_ID)
    {
      if i :| 0 <= i < |usable| && MESSAGE_ID(usable[i]) == id {
        assert MessageIds(batch)[i] == id;
      }
      if i :| 0 <= i < |batch| && MessageIds(batch)[i] == id {
        assert MESSAGE_ID(usable[i]) == id;
      }
    }
    forall k: Key
      ensures Touches(batch, k) <==> k.mailbox == mailbox && k.folder == folder && HasKey(usable, k.messageId, MESSAGE_ID)
    {
      if i :| 0 <= i < |batch| && KeyOf(batch[i]) == k {
        assert MESSAGE_ID(usable[i]) == k.messageId;
      }
      if k.mailbox == mailbox && k.folder == folder && HasKey(usable, k.messageId, MESSAGE_ID) {
        var i :| 0 <= i < |usable| && MESSAGE_ID(usable[i]) == k.messageId;
        assert KeyOf(batch[i]) == k;
      }
    }
  }

  /** An old row of the folder after the batch shows its message. */
  lemma MergedShows(old_: Row, new_: Row, mailbox: Id, folder: string, usable: seq<ImapMessage>, parents: map<string, string>)
    requires DistinctKeys(usable, MESSAGE_ID)
    requires RowAfter(old_, Batch(mailbox, folder, usable, parents), new_)
    ensures SameOrigin(old_, new_)
    ensures old_.In(mailbox, folder) && HasKey(usable, old_.messageId, MESSAGE_ID)
            ==> exists m :: m in usable && Shows(new_, m, parents)
    ensures !old_.In(mailbox, folder) ==> new_ == old_
  {
    var batch := Batch(mailbox, folder, usable, parents);
    BatchFacts(mailbox, folder, usable, parents);
    if Touches(batch, KeyOf(old_)) {
      var i :| 0 <= i < |batch| && KeyOf(batch[i]) == KeyOf(old_) && new_ == Merge(old_, batch[i]);
      assert Shows(new_, usable[i], parents);
    }
  }

  /** An old row of any folder, once the batch is in. */
  lemma OldRowAfterBatch(t: Table, next: Id, t1: Table, id: Id, mailbox: Id, folder: string, usable: seq<ImapMessage>, parents: map<string, string>)
    requires DistinctKeys(usable, MESSAGE_ID) && id in t
    requires Upserted(t, next, Batch(mailbox, folder, usable, parents), t1)
    ensures id in t1 && SameOrigin(t[id], t1[id])
    ensures t[id].In(mailbox, folder) && HasKey(usable, t[id].messageId, MESSAGE_ID)
            ==> exists m :: m in usable && Shows(t1[id], m, parents)
    ensures !t[id].In(mailbox, folder) ==> t1[id] == t[id]
  {
    assert RowAfter(t[id], Batch(mailbox, folder, usable, parents), t1[id]);
    MergedShows(t[id], t1[id], mailbox, folder, usable, parents);
  }

  lemma NewRowAfterBatch(t: Table, next: Id, t1: Table, id: Id, mailbox: Id, folder: string, usable: seq<ImapMessage>, parents: map<string, string>)
    requires DistinctKeys(usable, MESSAGE_ID)
    requires Upserted(t, next, Batch(mailbox, folder, usable, parents), t1) && id in t1 && id !in t
    ensures t1[id].In(mailbox, folder) && HasKey(usable, t1[id].messageId, MESSAGE_ID)
    ensures exists m :: m in usable && Records(t1[id], mailbox, folder, m, parents)
  {
    BatchFacts(mailbox, folder, usable, parents);
    var m :| m in usable && Records(t1[id], mailbox, folder, m, parents);
    assert MESSAGE_ID(m) == t1[id].messageId;
  }

  /** What the table holds once the batch is in. */
  ghost predicate Batched(t: Table, t1: Table, mailbox: Id, folder: string, usable: seq<ImapMessage>, parents: map<string, string>) {
    && UniqueKeys(t1)
    && (forall id | id in t ::
          && id in t1 && SameOrigin(t[id], t1[id])
          && (!t[id].In(mailbox, folder) ==> t1[id] == t[id]))
    && (forall id | id in t1 && t1[id].In(mailbox, folder) && HasKey(usable, t1[id].messageId, MESSAGE_ID) ::
          exists m :: m in usable && Shows(t1[id], m, parents))
    && (forall id | id in t1 && id !in t ::
          && t1[id].In(mailbox, folder) && HasKey(usable, t1[id].messageId, MESSAGE_ID)
          && exists m :: m in usable && Records(t1[id], mailbox, folder, m, parents))
    && (forall m | m in usable :: Holds(t1, Key(mailbox, folder, m.messageId)))
  }

  lemma BatchHoldsUsable(t1: Table, mailbox: Id, folder: string, usable: seq<ImapMessage>, parents: map<string, string>, m: ImapMessage)
    requires m in usable
    requires forall r | r in Batch(mailbox, folder, usable, parents) :: Holds(t1, KeyOf(r))
    ensures Holds(t1, Key(mailbox, folder, m.messageId))
  {
    var k :| 0 <= k < |usable| && usable[k] == m;
    assert Batch(mailbox, folder, usable, parents)[k] in Batch(mailbox, folder, usable, parents);
  }

  lemma UpsertedIsBatched(t: Table, next: Id, t1: Table, mailbox: Id, folder: string, usable: seq<ImapMessage>, parents: map<string, string>)
    requires DistinctKeys(usable, MESSAGE_ID)
    requires Upserted(t, next, Batch(mailbox, folder, usable, parents), t1)
    ensures Batched(t, t1, mailbox, folder, usable, parents)
  {
    forall id | id in t
      ensures id in t1 && SameOrigin(t[id], t1[id])
      ensures t[id].In(mailbox, folder) && HasKey(usable, t[id].messageId, MESSAGE_ID)
              ==> exists m :: m in usable && Shows(t1[id], m, parents)
      ensures !t[id].In(mailbox, folder) ==> t1[id] == t[id]
    {
      OldRowAfterBatch(t, next, t1, id, mailbox, folder, usable, parents);
    }
    forall id | id in t1 && id !in t
      ensures t1[id].In(mailbox, folder) && HasKey(usable, t1[id].messageId, MESSAGE_ID)
      ensures exists m :: m in usable && Records(t1[id], mailbox, folder, m, parents)
    {
      NewRowAfterBatch(t, next, t1, id, mailbox, folder, usable, parents);
    }
    forall m | m in usable
      ensures Holds(t1, Key(mailbox, folder, m.messageId))
    {
      BatchHoldsUsable(t1, mailbox, folder, usable, parents, m);
    }
  }

  /** The rows of the folder that the usable messages do not name are gone, the others stay. */
  ghost predicate Pruned(t1: Table, t': Table, mailbox: Id, folder: string, usable: seq<ImapMessage>) {
    && (forall id :: id in t' <==> id in t1 && (t1[id].In(mailbox, folder) ==> HasKey(usable, t1[id].messageId, MESSAGE_ID)))
    && forall id | id in t' :: t'[id] == t1[id]
  }

  lemma PrunedHolds(t1: Table, t': Table, mailbox: Id, folder: string, usable: seq<ImapMessage>, m: ImapMessage)
    requires Pruned(t1, t', mailbox, folder, usable) && m in usable
    requires Holds(t1, Key(mailbox, folder, m.messageId))
    ensures Holds(t', Key(mailbox, folder, m.messageId))
  {
    var id :| id in t1 && KeyOf(t1[id]) == Key(mailbox, folder, m.messageId);
    var k :| 0 <= k < |usable| && usable[k] == m;
    assert MESSAGE_ID(usable[k]) == t1[id].messageId;
    assert KeyOf(t'[id]) == Key(mailbox, folder, m.messageId);
  }

  lemma PrunedMirrors(t: Table, t1: Table, t': Table, mailbox: Id, folder: string, usable: seq<ImapMessage>, parents: map<string, string>)
    requires Batched(t, t1, mailbox, folder, usable, parents) && Pruned(t1, t', mailbox, folder, usable)
    ensures Mirrors(t, t', mailbox, folder, usable, parents)
  {
    forall m | m in usable
      ensures Holds(t', Key(mailbox, folder, m.messageId))
    {
      PrunedHolds(t1, t', mailbox, folder, usable, m);
    }
  }

  lemma NamedRowSurvives(t: Table, t': Table, id: Id, usable: seq<ImapMessage>, parents: map<string, string>)
    requires id in t && Mirrors(t, t', t[id].mailbox, t[id].folder, usable, parents)
    requires HasKey(usable, t[id].messageId, MESSAGE_ID)
    ensures id in t' && SameOrigin(t[id], t'[id])
  {
    assert t[id].In(t[id].mailbox, t[id].folder);
  }

  /** After a sync the folder's rows are the server's messages, one per Message-ID. */
  lemma SyncMirrors(t: Table, next: Id, mailbox: Id, folder: string, listing: seq<ImapMessage>, parents: map<string, string>)
    requires UniqueKeys(t) && Below(t, next)
    ensures var t' := Synced(t, next, mailbox, folder, listing, parents);
            Mirrors(t, t', mailbox, folder, Usable(listing), parents) && Below(t', next + |Usable(listing)|)
  {
    UsableMessages(listing);
    UsableMirrors(t, next, mailbox, folder, Usable(listing), parents);
  }

  lemma UsableMirrors(t: Table, next: Id, mailbox: Id, folder: string, usable: seq<ImapMessage>, parents: map<string, string>)
    requires UniqueKeys(t) && Below(t, next) && DistinctKeys(usable, MESSAGE_ID)
    ensures var batch := Batch(mailbox, folder, usable, parents);
            var t' := Prune(UpsertAll(t, next, batch), mailbox, folder, MessageIds(batch));
            Mirrors(t, t', mailbox, folder, usable, parents) && Below(t', next + |usable|)
  {
    var batch := Batch(mailbox, folder, usable, parents);
    var t1 := UpsertAll(t, next, batch);
    BatchFacts(mailbox, folder, usable, parents);
    UpsertAllEffect(t, next, batch);
    UpsertedIsBatched(t, next, t1, mailbox, folder, usable, parents);
    PrunedMirrors(t, t1, Prune(t1, mailbox, folder, MessageIds(batch)), mailbox, folder, usable, parents);
  }

  lemma PruneKeepsPlaces(t: Table, mailbox: Id, folder: string, keep: seq<string>)
    ensures forall k: Key ::
              Holds(Prune(t, mailbox, folder, keep), k)
              <==> Holds(t, k) && (k.mailbox == mailbox && k.folder == folder ==> k.messageId in keep)
  {
    var t' := Prune(t, mailbox, folder, keep);
    forall k: Key
      ensures Holds(t', k) <==> Holds(t, k) && (k.mailbox == mailbox && k.folder == folder ==> k.messageId in keep)
    {
      if id :| id in t && KeyOf(t[id]) == k {
        if k.mailbox == mailbox && k.folder == folder ==> k.messageId in keep {
          assert id in t' && KeyOf(t'[id]) == k;
        }
      }
    }
  }

  // ----- The store -----

  class MessageStore {
    var rows: Table
    var nextId: Id

    ghost predicate Valid()
      reads this
    {
      UniqueKeys(rows) && Below(rows, nextId)
    }

    constructor ()
      ensures Valid() && rows == map[]
    {
      rows := map[];
      nextId := 0;
    }

    /** The lookup of src/messages/message.repository.ts; rows come back in no particular order. */
    method ThreadsOf(mailbox: Id, asked: set<string>) returns (parents: map<string, string>)
      ensures ThreadsFound(rows, mailbox, asked, parents)
    {
      parents := map[];
      var todo := rows.Keys;
      while todo != {}
        invariant todo <= rows.Keys
        invariant forall p | p in parents ::
                    p in asked && exists id :: id in rows && HasThread(rows[id], mailbox, p, parents[p])
        invariant forall id | id in rows.Keys - todo ::
                    rows[id].mailbox == mailbox && rows[id].messageId in asked && rows[id].threadId.Some?
                    ==> rows[id].messageId in parents
        decreases |todo|
      {
        var id :| id in todo;
        todo := todo - {id};
        var row := rows[id];
        if row.mailbox == mailbox && row.messageId in asked && row.threadId.Some? {
          assert HasThread(rows[id], mailbox, row.messageId, row.threadId.value);
          parents := parents[row.messageId := row.threadId.value];
        }
      }
    }

    method UpsertRow(row: Row)
      requires Valid()
      modifies this
      ensures Valid()
      ensures rows == UpsertOne(old(rows), old(nextId), row) && nextId == old(nextId) + 1
    {
      UpsertOneEffect(rows, nextId, row);
      if at :| at in rows && KeyOf(rows[at]) == KeyOf(row) {
        rows := rows[at := Merge(rows[at], row)];
      } else {
        rows := rows[nextId := row];
      }
      nextId := nextId + 1;
    }

    /** One statement for the whole batch; PostgreSQL refuses a batch that names a key twice. */
    method Upsert(batch: seq<Row>)
      requires Valid() && DistinctRowKeys(batch)
      modifies this
      ensures Valid()
      ensures rows == UpsertAll(old(rows), old(nextId), batch)
      ensures nextId == old(nextId) + |batch|
    {
      for i := 0 to |batch|
        invariant Valid() && nextId == old(nextId) + i
        invariant UpsertAll(rows, nextId, batch[i..]) == UpsertAll(old(rows), old(nextId), batch)
      {
        assert batch[i..][1..] == batch[i + 1..];
        UpsertRow(batch[i]);
      }
    }

    /** With nothing to keep the condition on the id is left out and the folder is emptied. */
    method PruneFolder(mailbox: Id, folder: string, keep: seq<string>)
      requires Valid()
      modifies this`rows
      ensures Valid() && rows == Prune(old(rows), mailbox, folder, keep)
      // the folder's messages are those it held and was to keep; every other place holds what it held
      ensures forall k: Key ::
                Holds(rows, k) <==> Holds(old(rows), k) && (k.mailbox == mailbox && k.folder == folder ==> k.messageId in keep)
    {
      ghost var before := rows;
      var gone := if |keep| == 0 then set id | id in rows && rows[id].In(mailbox, folder)
                  else set id | id in rows && rows[id].In(mailbox, folder) && rows[id].messageId !in keep;
      rows := rows - gone;
      assert rows == Prune(before, mailbox, folder, keep);
      PruneKeepsPlaces(before, mailbox, folder, keep);
    }

    /** The private syncFolder of src/messages/message.service.ts; a listing that failed is None. */
    method SyncFolder(mailbox: Id, folder: string, listing: Option<seq<ImapMessage>>)
      requires Valid()
      modifies this
      ensures Valid()
      ensures listing.None? ==> rows == old(rows) && nextId == old(nextId)
      ensures listing.Some? ==>
                exists parents ::
                  && ThreadsFound(old(rows), mailbox, ParentIds(Usable(listing.value)), parents)
                  && rows == Synced(old(rows), old(nextId), mailbox, folder, listing.value, parents)
    {
      if listing.None? {
        return;
      }
      var usable := KeepBestOfEach(Identified(listing.value), MESSAGE_ID, UID);
      var parents := ThreadsOf(mailbox, ParentIds(usable));
      var batch := Batch(mailbox, folder, usable, parents);
      UsableMessages(listing.value);
      BatchFacts(mailbox, folder, usable, parents);
      Upsert(batch);
      PruneFolder(mailbox, folder, MessageIds(batch));
    }
  }
}
