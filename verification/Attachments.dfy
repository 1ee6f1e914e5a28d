/** Draft attachments and their budget: src/attachments/attachment.service.ts and its repository. */
module Attachments {
  import opened Prelude

  /** The stored file lies under its mailbox and id, so the id names it. */
  datatype Attachment = Attachment(mailbox: Id, messageId: Option<string>, sizeBytes: nat)

  type Rows = map<Id, Attachment>

  /** Rows, and the ids whose file is on disk. */
  datatype Store = Store(rows: Rows, files: set<Id>, nextId: Id)

  datatype Reply = Ok | NotFound | BadRequest | TooLarge | Failed

  predicate IsDraft(rows: Rows, mailbox: Id, id: Id) {
    id in rows && rows[id].mailbox == mailbox && rows[id].messageId.None?
  }

  function Drafts(rows: Rows, mailbox: Id): set<Id> {
    set id | id in rows && IsDraft(rows, mailbox, id)
  }

  // ----- Sums over rows -----

  ghost function Total(rows: Rows, ids: set<Id>): nat
    requires ids <= rows.Keys
  {
    if ids == {} then 0
    else
      var id :| id in ids;
      rows[id].sizeBytes + Total(rows, ids - {id})
  }

  /** The sum does not depend on the order of summation. */
  lemma {:induction false} TotalWithout(rows: Rows, ids: set<Id>, x: Id)
    requires ids <= rows.Keys && x in ids
    ensures Total(rows, ids) == rows[x].sizeBytes + Total(rows, ids - {x})
    decreases ids
  {
    var id :| id in ids && Total(rows, ids) == rows[id].sizeBytes + Total(rows, ids - {id});
    if id != x {
      TotalWithout(rows, ids - {id}, x);
      TotalWithout(rows, ids - {x}, id);
      assert ids - {id} - {x} == ids - {x} - {id};
    }
  }

  lemma {:induction false} TotalOfSubset(rows: Rows, part: set<Id>, whole: set<Id>)
    requires part <= whole <= rows.Keys
    ensures Total(rows, part) <= Total(rows, whole)
    decreases whole
  {
    if x :| x in whole && x !in part {
      TotalWithout(rows, whole, x);
      TotalOfSubset(rows, part, whole - {x});
    } else {
      assert part == whole;
    }
  }

  lemma {:induction false} TotalFrame(a: Rows, b: Rows, ids: set<Id>)
    requires ids <= a.Keys && ids <= b.Keys
    requires forall id | id in ids :: a[id].sizeBytes == b[id].sizeBytes
    ensures Total(a, ids) == Total(b, ids)
    decreases ids
  {
    if ids != {} {
      var x :| x in ids;
      TotalWithout(a, ids, x);
      TotalWithout(b, ids, x);
      TotalFrame(a, b, ids - {x});
    }
  }

  ghost function DraftBytes(rows: Rows, mailbox: Id): nat {
    Total(rows, Drafts(rows, mailbox))
  }

  // ----- Effects -----

  /** upload: the file is written before its row, and a failed write leaves no row. */
  ghost function UploadEffect(s: Store, mailbox: Id, size: Option<nat>, limit: nat, written: bool): (Store, Reply) {
    if size.None? then (s, BadRequest)
    else if DraftBytes(s.rows, mailbox) + size.value > limit then (s, TooLarge)
    else if !written then (s.(nextId := s.nextId + 1), Failed)
    else (Store(s.rows[s.nextId := Attachment(mailbox, None, size.value)], s.files + {s.nextId}, s.nextId + 1), Ok)
  }

  /** remove: the row goes first; a file that cannot be removed stays behind. */
  function RemoveEffect(s: Store, mailbox: Id, id: Id, unlinked: bool): (Store, Reply) {
    if !IsDraft(s.rows, mailbox, id) then (s, NotFound)
    else (s.(rows := s.rows - {id}, files := if unlinked then s.files - {id} else s.files), Ok)
  }

  function FindDrafts(rows: Rows, mailbox: Id, ids: seq<Id>): set<Id> {
    set id | id in Drafts(rows, mailbox) && id in ids
  }

  /** claim: as many drafts as ids, and their total within the limit. */
  ghost function ClaimReply(rows: Rows, mailbox: Id, ids: seq<Id>, limit: nat): Reply {
    var found := FindDrafts(rows, mailbox, ids);
    if |found| != |ids| then BadRequest
    else if Total(rows, found) > limit then TooLarge
    else Ok
  }

  function Bound(rows: Rows, ids: seq<Id>, messageId: string): Rows {
    map id | id in rows :: if id in ids then rows[id].(messageId := Some(messageId)) else rows[id]
  }

  /** send and saveDraft: claim first, bind only once the message has gone out or been filed. */
  ghost function SendEffect(s: Store, mailbox: Id, ids: seq<Id>, limit: nat, gone: bool, messageId: string): (Store, Reply) {
    var claimed := ClaimReply(s.rows, mailbox, ids, limit);
    if !claimed.Ok? then (s, claimed)
    else if !gone then (s, Failed)
    else (s.(rows := Bound(s.rows, ids, messageId)), Ok)
  }

  // ----- The budget -----

  ghost predicate WithinBudget(s: Store, limit: nat) {
    && (forall id | id in s.rows :: id < s.nextId)
    && (forall mailbox :: DraftBytes(s.rows, mailbox) <= limit)
    && s.rows.Keys <= s.files
  }

  lemma UploadKeepsBudget(s: Store, mailbox: Id, size: Option<nat>, limit: nat, written: bool)
    requires WithinBudget(s, limit)
    ensures WithinBudget(UploadEffect(s, mailbox, size, limit, written).0, limit)
  {
    var (s', reply) := UploadEffect(s, mailbox, size, limit, written);
    if reply.Ok? {
      forall m
        ensures DraftBytes(s'.rows, m) <= limit
      {
        assert DraftBytes(s.rows, m) <= limit;
        TotalFrame(s.rows, s'.rows, Drafts(s.rows, m));
        if m == mailbox {
          assert Drafts(s'.rows, m) == Drafts(s.rows, m) + {s.nextId};
          assert Drafts(s'.rows, m) - {s.nextId} == Drafts(s.rows, m);
          TotalWithout(s'.rows, Drafts(s'.rows, m), s.nextId);
        } else {
          assert Drafts(s'.rows, m) == Drafts(s.rows, m);
        }
      }
    }
  }

  /** Fewer drafts of the same sizes stay within the budget. */
  lemma FewerDraftsKeepBudget(rows: Rows, rows': Rows, mailbox: Id, limit: nat)
    requires DraftBytes(rows, mailbox) <= limit
    requires Drafts(rows', mailbox) <= Drafts(rows, mailbox)
    requires forall id | id in Drafts(rows', mailbox) :: rows'[id].sizeBytes == rows[id].sizeBytes
    ensures DraftBytes(rows', mailbox) <= limit
  {
    TotalFrame(rows, rows', Drafts(rows', mailbox));
    TotalOfSubset(rows, Drafts(rows', mailbox), Drafts(rows, mailbox));
  }

  lemma RemoveKeepsBudget(s: Store, mailbox: Id, id: Id, unlinked: bool, limit: nat)
    requires WithinBudget(s, limit)
    ensures WithinBudget(RemoveEffect(s, mailbox, id, unlinked).0, limit)
  {
    var s' := RemoveEffect(s, mailbox, id, unlinked).0;
    forall m
      ensures DraftBytes(s'.rows, m) <= limit
    {
      FewerDraftsKeepBudget(s.rows, s'.rows, m, limit);
    }
  }

  lemma SendKeepsBudget(s: Store, mailbox: Id, ids: seq<Id>, limit: nat, gone: bool, messageId: string)
    requires WithinBudget(s, limit)
    ensures WithinBudget(SendEffect(s, mailbox, ids, limit, gone, messageId).0, limit)
  {
    var s' := SendEffect(s, mailbox, ids, limit, gone, messageId).0;
    forall m
      ensures DraftBytes(s'.rows, m) <= limit
    {
      FewerDraftsKeepBudget(s.rows, s'.rows, m, limit);
    }
  }

  /** A claim is refused as bad just when its ids are not distinct drafts of the mailbox, and as too large just when
      they are and weigh more than the limit. */
  lemma ClaimedExactly(rows: Rows, mailbox: Id, ids: seq<Id>, limit: nat)
    ensures var drafts := Distinct(ids) && forall id | id in ids :: id in rows && rows[id].mailbox == mailbox && rows[id].messageId == None;
            && (ClaimReply(rows, mailbox, ids, limit).BadRequest? <==> !drafts)
            && (drafts ==> SetOf(ids) <= rows.Keys
                           && ClaimReply(rows, mailbox, ids, limit) == if Total(rows, SetOf(ids)) > limit then TooLarge else Ok)
  {
    var found := FindDrafts(rows, mailbox, ids);
    SetSize(ids);
    SubsetIsSmaller(found, SetOf(ids));
    assert forall id :: IsDraft(rows, mailbox, id) <==> id in rows && rows[id].mailbox == mailbox && rows[id].messageId == None;
    assert forall id | id in ids :: id in SetOf(ids);
    if |found| == |ids| {
      SubsetOfSameSize(found, SetOf(ids));
    } else if forall id | id in ids :: IsDraft(rows, mailbox, id) {
      assert found == SetOf(ids);
    }
  }

  /** Within the budget the size check of claim never fires; a claim is refused just when an id is
      repeated or is no draft of the mailbox. */
  lemma ClaimNeverTooLarge(s: Store, mailbox: Id, ids: seq<Id>, limit: nat)
    requires WithinBudget(s, limit)
    ensures ClaimReply(s.rows, mailbox, ids, limit)
         == if Distinct(ids) && forall id | id in ids :: IsDraft(s.rows, mailbox, id) then Ok else BadRequest
  {
    var found := FindDrafts(s.rows, mailbox, ids);
    assert DraftBytes(s.rows, mailbox) <= limit;
    TotalOfSubset(s.rows, found, Drafts(s.rows, mailbox));
    SetSize(ids);
    SubsetIsSmaller(found, SetOf(ids));
    if |found| == |ids| {
      SubsetOfSameSize(found, SetOf(ids));
      assert forall id | id in ids :: id in SetOf(ids);
    } else if forall id | id in ids :: IsDraft(s.rows, mailbox, id) {
      assert found == SetOf(ids);
    }
  }

  // ----- What a request does -----

  /** An upload is accepted just when there is a file, it fits and it is written; then it is a draft of the mailbox of
      that size, and the drafts weigh as much more. */
  lemma UploadedExactly(s: Store, mailbox: Id, size: Option<nat>, limit: nat, written: bool)
    requires WithinBudget(s, limit)
    ensures var (s', reply) := UploadEffect(s, mailbox, size, limit, written);
            && (reply.BadRequest? <==> size.None?)
            && (reply.TooLarge? <==> size.Some? && DraftBytes(s.rows, mailbox) + size.value > limit)
            && (reply.Ok? <==> size.Some? && DraftBytes(s.rows, mailbox) + size.value <= limit && written)
            && (!reply.Ok? ==> s'.rows == s.rows && s'.files == s.files)
            && (reply.Ok? ==>
                  && s'.rows == s.rows[s.nextId := Attachment(mailbox, None, size.value)] && s.nextId !in s.rows
                  && s'.files == s.files + {s.nextId} && s.nextId < s'.nextId
                  && DraftBytes(s'.rows, mailbox) == DraftBytes(s.rows, mailbox) + size.value)
  {
    var (s', reply) := UploadEffect(s, mailbox, size, limit, written);
    if reply.Ok? {
      assert Drafts(s'.rows, mailbox) - {s.nextId} == Drafts(s.rows, mailbox);
      TotalWithout(s'.rows, Drafts(s'.rows, mailbox), s.nextId);
      TotalFrame(s.rows, s'.rows, Drafts(s.rows, mailbox));
    }
  }

  /** A removal takes exactly a draft of the mailbox away, and its file when that can be done. */
  lemma RemovedExactly(s: Store, mailbox: Id, id: Id, unlinked: bool)
    ensures var (s', reply) := RemoveEffect(s, mailbox, id, unlinked);
            && (reply.Ok? <==> id in s.rows && s.rows[id].mailbox == mailbox && s.rows[id].messageId == None)
            && (!reply.Ok? ==> reply.NotFound? && s' == s)
            && (reply.Ok? ==>
                  s'.rows == s.rows - {id} && s'.nextId == s.nextId && s'.files == if unlinked then s.files - {id} else s.files)
  {
  }

  /** A send is accepted just when its ids are distinct drafts of the mailbox and the message goes out; then exactly they are
      bound to it. */
  lemma SentExactly(s: Store, mailbox: Id, ids: seq<Id>, limit: nat, gone: bool, messageId: string)
    requires WithinBudget(s, limit)
    ensures var (s', reply) := SendEffect(s, mailbox, ids, limit, gone, messageId);
            var claimed := Distinct(ids) && forall id | id in ids :: id in s.rows && s.rows[id].mailbox == mailbox && s.rows[id].messageId == None;
            && reply == (if !claimed then BadRequest else if !gone then Failed else Ok)
            && s'.rows.Keys == s.rows.Keys && s'.files == s.files && s'.nextId == s.nextId
            && forall id | id in s.rows ::
                 s'.rows[id] == if reply.Ok? && id in ids then Attachment(mailbox, Some(messageId), s.rows[id].sizeBytes) else s.rows[id]
  {
    ClaimNeverTooLarge(s, mailbox, ids, limit);
    assert forall id :: IsDraft(s.rows, mailbox, id) <==> id in s.rows && s.rows[id].mailbox == mailbox && s.rows[id].messageId == None;
  }

  // ----- Runs -----

  datatype Event =
    | Upload(mailbox: Id, size: Option<nat>, written: bool)
    | Remove(mailbox: Id, id: Id, unlinked: bool)
    | Send(mailbox: Id, ids: seq<Id>, gone: bool, messageId: string)

  ghost function After(s: Store, e: Event, limit: nat): (Store, Reply) {
    match e
    case Upload(mailbox, size, written) => UploadEffect(s, mailbox, size, limit, written)
    case Remove(mailbox, id, unlinked) => RemoveEffect(s, mailbox, id, unlinked)
    case Send(mailbox, ids, gone, messageId) => SendEffect(s, mailbox, ids, limit, gone, messageId)
  }

  ghost predicate IsRun(stores: seq<Store>, events: seq<Event>, limit: nat) {
    && |stores| == |events| + 1
    && stores[0].rows == map[] && stores[0].files == {}
    && forall i | 0 <= i < |events| :: stores[i + 1] == After(stores[i], events[i], limit).0
  }

  /** Over every sequential run the drafts of each mailbox stay within the limit, and every row has its file. */
  lemma {:induction false} BudgetHolds(stores: seq<Store>, events: seq<Event>, limit: nat, n: nat)
    requires IsRun(stores, events, limit) && n < |stores|
    ensures WithinBudget(stores[n], limit)
  {
    if n > 0 {
      BudgetHolds(stores, events, limit, n - 1);
      match events[n - 1]
      case Upload(mailbox, size, written) => UploadKeepsBudget(stores[n - 1], mailbox, size, limit, written);
      case Remove(mailbox, id, unlinked) => RemoveKeepsBudget(stores[n - 1], mailbox, id, unlinked, limit);
      case Send(mailbox, ids, gone, messageId) => SendKeepsBudget(stores[n - 1], mailbox, ids, limit, gone, messageId);
    }
  }

  ghost predicate Binds(s: Store, e: Event, limit: nat, id: Id) {
    e.Send? && After(s, e, limit).1.Ok? && id in e.ids
  }

  lemma SendBindsDrafts(s: Store, mailbox: Id, ids: seq<Id>, limit: nat, gone: bool, messageId: string, id: Id)
    requires WithinBudget(s, limit) && id in ids
    requires SendEffect(s, mailbox, ids, limit, gone, messageId).1.Ok?
    ensures IsDraft(s.rows, mailbox, id)
    ensures SendEffect(s, mailbox, ids, limit, gone, messageId).0.rows[id] == s.rows[id].(messageId := Some(messageId))
  {
    ClaimNeverTooLarge(s, mailbox, ids, limit);
  }

  /** No event touches a bound row or reuses its id. */
  lemma BoundRowStays(s: Store, e: Event, limit: nat, id: Id)
    requires WithinBudget(s, limit) && id in s.rows && s.rows[id].messageId.Some?
    ensures var s' := After(s, e, limit).0; id in s'.rows && s'.rows[id] == s.rows[id]
  {
    if e.Send? && id in e.ids && After(s, e, limit).1.Ok? {
      SendBindsDrafts(s, e.mailbox, e.ids, limit, e.gone, e.messageId, id);
    }
  }

  lemma {:induction false} BoundForGood(stores: seq<Store>, events: seq<Event>, limit: nat, id: Id, i: nat, j: nat)
    requires IsRun(stores, events, limit) && i <= j < |stores|
    requires id in stores[i].rows && stores[i].rows[id].messageId.Some?
    ensures id in stores[j].rows && stores[j].rows[id] == stores[i].rows[id]
  {
    if i < j {
      BoundForGood(stores, events, limit, id, i, j - 1);
      BudgetHolds(stores, events, limit, j - 1);
      BoundRowStays(stores[j - 1], events[j - 1], limit, id);
    }
  }

  /** No attachment is bound by two sends. */
  lemma BoundAtMostOnce(stores: seq<Store>, events: seq<Event>, limit: nat, id: Id, i: nat, j: nat)
    requires IsRun(stores, events, limit) && i < j < |events|
    requires Binds(stores[i], events[i], limit, id)
    ensures !Binds(stores[j], events[j], limit, id)
    ensures id in stores[j].rows && stores[j].rows[id].messageId == Some(events[i].messageId)
  {
    var e := events[i];
    BudgetHolds(stores, events, limit, i);
    BudgetHolds(stores, events, limit, j);
    assert stores[i + 1] == After(stores[i], e, limit).0;
    SendBindsDrafts(stores[i], e.mailbox, e.ids, limit, e.gone, e.messageId, id);
    BoundForGood(stores, events, limit, id, i + 1, j);
    if Binds(stores[j], events[j], limit, id) {
      var f := events[j];
      SendBindsDrafts(stores[j], f.mailbox, f.ids, limit, f.gone, f.messageId, id);
      assert false;
    }
  }

  // ----- The service -----

  class AttachmentService {
    var rows: Rows
    var files: set<Id>
    var nextId: Id
    const limit: nat

    ghost function Current(): Store
      reads this
    {
      Store(rows, files, nextId)
    }

    constructor (limit: nat)
      ensures this.limit == limit && Current() == Store(map[], {}, 0)
    {
      this.limit, rows, files, nextId := limit, map[], {}, 0;
    }

    /** Adds up the sizes of the rows, one after the other. */
    method Sum(ids: set<Id>) returns (total: nat)
      requires ids <= rows.Keys
      ensures total == Total(rows, ids)
    {
      total := 0;
      var todo := ids;
      while todo != {}
        invariant todo <= ids
        invariant total + Total(rows, todo) == Total(rows, ids)
        decreases |todo|
      {
        var id :| id in todo;
        TotalWithout(rows, todo, id);
        total := total + rows[id].sizeBytes;
        todo := todo - {id};
      }
    }

    method Upload(mailbox: Id, size: Option<nat>, written: bool) returns (reply: Reply)
      modifies this
      ensures (Current(), reply) == UploadEffect(old(Current()), mailbox, size, limit, written)
    {
      if size.None? {
        return BadRequest;
      }
      var already := Sum(Drafts(rows, mailbox));
      if already + size.value > limit {
        return TooLarge;
      }
      var id := nextId;
      nextId := nextId + 1;
      if !written {
        return Failed;
      }
      files := files + {id};
      rows := rows[id := Attachment(mailbox, None, size.value)];
      return Ok;
    }

    method Remove(mailbox: Id, id: Id, unlinked: bool) returns (reply: Reply)
      modifies this`rows, this`files
      ensures (Current(), reply) == RemoveEffect(old(Current()), mailbox, id, unlinked)
    {
      if !IsDraft(rows, mailbox, id) {
        return NotFound;
      }
      rows := rows - {id};
      if unlinked {
        files := files - {id};
      }
      return Ok;
    }

    method Claim(mailbox: Id, ids: seq<Id>) returns (reply: Reply, found: set<Id>)
      ensures reply == ClaimReply(rows, mailbox, ids, limit)
      ensures reply.Ok? ==> found == FindDrafts(rows, mailbox, ids)
    {
      found := FindDrafts(rows, mailbox, ids);
      if |found| != |ids| {
        return BadRequest, {};
      }
      var total := Sum(found);
      if total > limit {
        return TooLarge, {};
      }
      return Ok, found;
    }

    /** The steps of send and saveDraft that concern attachments; `gone` tells whether what lies between succeeded. */
    method Send(mailbox: Id, ids: seq<Id>, gone: bool, messageId: string) returns (reply: Reply)
      modifies this`rows
      ensures (Current(), reply) == SendEffect(old(Current()), mailbox, ids, limit, gone, messageId)
    {
      var found: set<Id>;
      reply, found := Claim(mailbox, ids);
      if !reply.Ok? {
        return;
      }
      if !gone {
        return Failed;
      }
      SetSize(ids);
      SubsetIsSmaller(found, SetOf(ids));
      SubsetOfSameSize(found, SetOf(ids));
      assert forall id | id in rows :: id in ids <==> id in found;
      rows := map id | id in rows :: if id in found then rows[id].(messageId := Some(messageId)) else rows[id];
      assert rows == Bound(old(rows), ids, messageId);
    }
  }
}
