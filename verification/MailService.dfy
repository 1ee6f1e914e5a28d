/**
 * The service methods behind the mailroom, step by step as src/messages/message.service.ts and
 * src/folders/folder.service.ts take them, and the bulk operations built from them.
 */
module MailService {
  import opened Prelude
  import opened Projection
  import opened Folders
  import opened ImapServer
  import opened Mailroom

  // ----- Bulk operations -----

  datatype Bulk = Bulk(world: World, processed: seq<Id>, failed: seq<Id>)

  /** eachInTurn: one call per id, in order; a call that throws only lands its id among the failed. */
  ghost function EachInTurn(run: (World, nat, Id) -> Effect, w: World, ids: seq<Id>): Bulk
  {
    if ids == [] then Bulk(w, [], [])
    else
      var last := |ids| - 1;
      var before := EachInTurn(run, w, ids[..last]);
      var effect := run(before.world, last, ids[last]);
      if effect.outcome.Done? then Bulk(effect.world, before.processed + [ids[last]], before.failed)
      else Bulk(effect.world, before.processed, before.failed + [ids[last]])
  }

  /** Whether each call of the batch completed. */
  ghost function Completed(run: (World, nat, Id) -> Effect, w: World, ids: seq<Id>): (r: seq<bool>)
    ensures |r| == |ids|
  {
    seq(|ids|, i requires 0 <= i < |ids| => run(EachInTurn(run, w, ids[..i]).world, i, ids[i]).outcome.Done?)
  }

  function Select<T>(items: seq<T>, marks: seq<bool>, mark: bool): seq<T>
    requires |marks| == |items|
  {
    if items == [] then []
    else Select(items[..|items| - 1], marks[..|marks| - 1], mark)
         + if marks[|marks| - 1] == mark then [items[|items| - 1]] else []
  }

  lemma CompletedPrefix(run: (World, nat, Id) -> Effect, w: World, ids: seq<Id>)
    requires ids != []
    ensures Completed(run, w, ids)[..|ids| - 1] == Completed(run, w, ids[..|ids| - 1])
  {
    forall i | 0 <= i < |ids| - 1
      ensures ids[..|ids| - 1][..i] == ids[..i]
    {
    }
  }

  /** Processed and failed are the completed and the other ids, each in the batch's order. */
  lemma {:induction false} BulkPartitions(run: (World, nat, Id) -> Effect, w: World, ids: seq<Id>)
    ensures var bulk, done := EachInTurn(run, w, ids), Completed(run, w, ids);
            bulk.processed == Select(ids, done, true) && bulk.failed == Select(ids, done, false)
  {
    if ids != [] {
      BulkPartitions(run, w, ids[..|ids| - 1]);
      CompletedPrefix(run, w, ids);
    }
  }

  lemma {:induction false} SelectBoth<T>(items: seq<T>, marks: seq<bool>)
    requires |marks| == |items|
    ensures multiset(Select(items, marks, true)) + multiset(Select(items, marks, false)) == multiset(items)
  {
    if items != [] {
      var last := |items| - 1;
      SelectBoth(items[..last], marks[..last]);
      assert items == items[..last] + [items[last]];
    }
  }

  /** Every id of the batch is processed or failed, as often as it stands in the batch. */
  lemma BulkLosesNoId(run: (World, nat, Id) -> Effect, w: World, ids: seq<Id>)
    ensures var bulk := EachInTurn(run, w, ids);
            multiset(bulk.processed) + multiset(bulk.failed) == multiset(ids)
  {
    BulkPartitions(run, w, ids);
    SelectBoth(ids, Completed(run, w, ids));
  }

  /** A completed call removes its own row and no other; a failed call removes none. */
  ghost predicate Consumes(run: (World, nat, Id) -> Effect) {
    forall w: World, i: nat, id: Id ::
      var e := run(w, i, id);
      if e.outcome.Done? then id in w.rows && e.world.rows.Keys == w.rows.Keys - {id}
      else e.world.rows.Keys == w.rows.Keys
  }

  /** No id is processed twice, and the rows gone are exactly the processed ones. */
  lemma {:induction false} EachProcessedOnce(run: (World, nat, Id) -> Effect, w: World, ids: seq<Id>)
    requires Consumes(run)
    ensures var bulk := EachInTurn(run, w, ids);
            && Distinct(bulk.processed)
            && SetOf(bulk.processed) <= w.rows.Keys
            && bulk.world.rows.Keys == w.rows.Keys - SetOf(bulk.processed)
  {
    if ids != [] {
      var last := |ids| - 1;
      EachProcessedOnce(run, w, ids[..last]);
      var before := EachInTurn(run, w, ids[..last]);
      var effect := run(before.world, last, ids[last]);
      if effect.outcome.Done? {
        assert ids[last] in before.world.rows.Keys;
        assert SetOf(before.processed + [ids[last]]) == SetOf(before.processed) + {ids[last]};
        assert ids[last] !in before.processed by {
          assert ids[last] !in SetOf(before.processed);
        }
      }
    }
  }

  /** What the server answers to the calls one id of a batch needs. */
  datatype Answers = Answers(search: Reply, trash: Option<Option<string>>, reply: Reply)

  ghost function MoveRun(mailbox: Id, folder: string, answers: seq<Answers>): (World, nat, Id) -> Effect {
    (w: World, i: nat, id: Id) =>
      if i < |answers| then MoveEffect(w, mailbox, id, folder, answers[i].search, answers[i].reply) else Effect(w, Unavailable)
  }

  ghost function RemoveRun(mailbox: Id, answers: seq<Answers>): (World, nat, Id) -> Effect {
    (w: World, i: nat, id: Id) =>
      if i < |answers| then RemoveEffect(w, mailbox, id, answers[i].search, answers[i].trash, answers[i].reply)
      else Effect(w, Unavailable)
  }

  ghost function MarkReadRun(mailbox: Id, read: bool, answers: seq<Answers>): (World, nat, Id) -> Effect {
    (w: World, i: nat, id: Id) =>
      if i < |answers| then MarkReadEffect(w, mailbox, id, read, answers[i].reply) else Effect(w, Unavailable)
  }

  /** A repeated id in a bulk move or remove is processed at most once. */
  lemma BulkMoveAndRemoveConsume(mailbox: Id, folder: string, answers: seq<Answers>)
    ensures Consumes(MoveRun(mailbox, folder, answers))
    ensures Consumes(RemoveRun(mailbox, answers))
  {
    forall w: World, i: nat, id: Id
      ensures var e := MoveRun(mailbox, folder, answers)(w, i, id);
              if e.outcome.Done? then id in w.rows && e.world.rows.Keys == w.rows.Keys - {id}
              else e.world.rows.Keys == w.rows.Keys
    {
    }
    forall w: World, i: nat, id: Id
      ensures var e := RemoveRun(mailbox, answers)(w, i, id);
              if e.outcome.Done? then id in w.rows && e.world.rows.Keys == w.rows.Keys - {id}
              else e.world.rows.Keys == w.rows.Keys
    {
    }
  }

  /** A batch runs as its calls answer, whatever would have been answered to further ids. */
  lemma {:induction false} SameRuns(a: (World, nat, Id) -> Effect, b: (World, nat, Id) -> Effect, w: World, ids: seq<Id>)
    requires forall v: World, i: nat, id: Id | i < |ids| :: a(v, i, id) == b(v, i, id)
    ensures EachInTurn(a, w, ids) == EachInTurn(b, w, ids)
  {
    if ids != [] {
      SameRuns(a, b, w, ids[..|ids| - 1]);
    }
  }

  /** What one more call adds to a batch. */
  ghost function Added(before: Bulk, id: Id, e: Effect): Bulk {
    if e.outcome.Done? then Bulk(e.world, before.processed + [id], before.failed) else Bulk(e.world, before.processed, before.failed + [id])
  }

  lemma OneMoreCall(run: (World, nat, Id) -> Effect, shorter: (World, nat, Id) -> Effect, w: World, ids: seq<Id>, id: Id)
    requires forall v: World, i: nat, x: Id | i < |ids| :: run(v, i, x) == shorter(v, i, x)
    ensures var before := EachInTurn(shorter, w, ids);
            EachInTurn(run, w, ids + [id]) == Added(before, id, run(before.world, |ids|, id))
  {
    assert (ids + [id])[..|ids|] == ids;
    SameRuns(run, shorter, w, ids);
  }

  /** Bulk operations are single ones, one after the other, each in the world the one before it left. */
  lemma BulkIsOneByOne(mailbox: Id, folder: string, read: bool, w: World, ids: seq<Id>, answers: seq<Answers>, id: Id, a: Answers)
    requires |answers| == |ids|
    ensures var before := EachInTurn(MoveRun(mailbox, folder, answers), w, ids);
            EachInTurn(MoveRun(mailbox, folder, answers + [a]), w, ids + [id])
              == Added(before, id, MoveEffect(before.world, mailbox, id, folder, a.search, a.reply))
    ensures var before := EachInTurn(RemoveRun(mailbox, answers), w, ids);
            EachInTurn(RemoveRun(mailbox, answers + [a]), w, ids + [id])
              == Added(before, id, RemoveEffect(before.world, mailbox, id, a.search, a.trash, a.reply))
    ensures var before := EachInTurn(MarkReadRun(mailbox, read, answers), w, ids);
            EachInTurn(MarkReadRun(mailbox, read, answers + [a]), w, ids + [id])
              == Added(before, id, MarkReadEffect(before.world, mailbox, id, read, a.reply))
  {
    OneMoreCall(MoveRun(mailbox, folder, answers + [a]), MoveRun(mailbox, folder, answers), w, ids, id);
    OneMoreCall(RemoveRun(mailbox, answers + [a]), RemoveRun(mailbox, answers), w, ids, id);
    OneMoreCall(MarkReadRun(mailbox, read, answers + [a]), MarkReadRun(mailbox, read, answers), w, ids, id);
  }

  // ----- The service -----

  class Service {
    const store: MessageStore
    var server: Server

    ghost predicate Valid()
      reads this, store
    {
      store.Valid()
    }

    ghost function Current(): World
      reads this, store
    {
      World(store.rows, store.nextId, server)
    }

    constructor (store: MessageStore, server: Server)
      requires store.Valid()
      ensures Valid() && this.store == store && this.server == server
    {
      this.store, this.server := store, server;
    }

    method SetRow(id: Id, row: Row)
      requires Valid() && id in store.rows && KeyOf(row) == KeyOf(store.rows[id])
      modifies store`rows
      ensures Valid() && store.rows == old(store.rows)[id := row]
    {
      store.rows := store.rows[id := row];
    }

    method DeleteRow(id: Id)
      requires Valid()
      modifies store`rows
      ensures Valid() && store.rows == old(store.rows) - {id}
    {
      store.rows := store.rows - {id};
    }

    method ResolveUid(id: Id, search: Reply) returns (found: Resolution)
      requires Valid() && id in store.rows
      modifies store`rows
      ensures Valid() && found == Resolve(server, old(store.rows[id]), search)
      ensures Current() == if found.At? then WithUid(old(Current()), id, found.uid) else old(Current())
    {
      var row := store.rows[id];
      if row.imapUid.Some? {
        assert store.rows == store.rows[id := row];
        return At(row.imapUid.value);
      }
      if search.Unreachable? || BoxOf(row) !in server {
        return Failed;
      }
      if search.Accepted? {
        var mail := server[BoxOf(row)].mail;
        if u :| u in mail && IsLast(server, BoxOf(row), u, row.messageId) {
          SetRow(id, row.(imapUid := Some(u)));
          return At(u);
        }
      }
      return Absent;
    }

    method MarkRead(mailbox: Id, id: Id, read: bool, reply: Reply) returns (outcome: Outcome)
      requires Valid()
      modifies this`server, store`rows
      ensures Valid() && Effect(Current(), outcome) == MarkReadEffect(old(Current()), mailbox, id, read, reply)
    {
      if id !in store.rows || store.rows[id].mailbox != mailbox {
        return NotFound;
      }
      var row := store.rows[id];
      if row.imapUid.Some? {
        if reply.Unreachable? || BoxOf(row) !in server {
          return Unavailable;
        }
        if reply.Accepted? {
          server := SetSeen(server, BoxOf(row), row.imapUid.value, read);
        }
      }
      SetRow(id, row.(read := read));
      return Done;
    }

    method Read(mailbox: Id, id: Id, search: Reply, fetch: Reply, flag: Reply) returns (outcome: Outcome)
      requires Valid()
      modifies this`server, store`rows
      ensures Valid() && Effect(Current(), outcome) == ReadEffect(old(Current()), mailbox, id, search, fetch, flag)
    {
      if id !in store.rows || store.rows[id].mailbox != mailbox {
        return NotFound;
      }
      var row := store.rows[id];
      var found := ResolveUid(id, search);
      if found.Failed? || (found.At? && (fetch.Unreachable? || BoxOf(row) !in server)) {
        return Unavailable;
      }
      outcome := Done;
      if !row.read {
        outcome := MarkRead(mailbox, id, true, flag);
      }
    }

    method Move(mailbox: Id, id: Id, folder: string, search: Reply, reply: Reply) returns (outcome: Outcome)
      requires Valid()
      modifies this`server, store`rows
      ensures Valid() && Effect(Current(), outcome) == MoveEffect(old(Current()), mailbox, id, folder, search, reply)
    {
      if id !in store.rows || store.rows[id].mailbox != mailbox {
        return NotFound;
      }
      var row := store.rows[id];
      var found := ResolveUid(id, search);
      if found.Failed? {
        return Unavailable;
      }
      if found.At? {
        if reply.Unreachable? || BoxOf(row) !in server {
          return Unavailable;
        }
        if reply.Accepted? {
          server := MoveMail(server, BoxOf(row), found.uid, Box(mailbox, folder));
        }
      }
      DeleteRow(id);
      return Done;
    }

    method Remove(mailbox: Id, id: Id, search: Reply, trash: Option<Option<string>>, reply: Reply) returns (outcome: Outcome)
      requires Valid()
      modifies this`server, store`rows
      ensures Valid() && Effect(Current(), outcome) == RemoveEffect(old(Current()), mailbox, id, search, trash, reply)
    {
      if id !in store.rows || store.rows[id].mailbox != mailbox {
        return NotFound;
      }
      var row := store.rows[id];
      var found := ResolveUid(id, search);
      if found.Failed? || trash.None? {
        return Unavailable;
      }
      if found.At? {
        if reply.Unreachable? || BoxOf(row) !in server {
          return Unavailable;
        }
        if reply.Accepted? {
          if trash.value.Some? && row.folder != trash.value.value {
            server := MoveMail(server, BoxOf(row), found.uid, Box(mailbox, trash.value.value));
          } else {
            server := Take(server, BoxOf(row), found.uid);
          }
        }
      }
      DeleteRow(id);
      return Done;
    }

    /** The caller swallows the outcome. */
    method DiscardDraft(mailbox: Id, draft: Id, search: Reply, reply: Reply) returns (outcome: Outcome)
      requires Valid()
      modifies this`server, store`rows
      ensures Valid() && Effect(Current(), outcome) == DiscardEffect(old(Current()), mailbox, draft, search, reply)
    {
      if draft !in store.rows || store.rows[draft].mailbox != mailbox {
        return NotFound;
      }
      var row := store.rows[draft];
      var found := ResolveUid(draft, search);
      if found.Failed? {
        return Unavailable;
      }
      if found.Absent? {
        return NotFound;
      }
      if reply.Unreachable? || BoxOf(row) !in server {
        return Unavailable;
      }
      if reply.Accepted? {
        server := Take(server, BoxOf(row), found.uid);
      }
      DeleteRow(draft);
      return Done;
    }

    method RenameFolder(mailbox: Id, path: string, name: string, listing: Reply, reply: Reply, closing: Reply) returns (outcome: Outcome)
      requires Valid()
      modifies this`server, store`rows
      ensures Valid() && Effect(Current(), outcome) == RenameEffect(old(Current()), mailbox, path, name, listing, reply, closing)
    {
      if listing.Unreachable? {
        return Unavailable;
      }
      if Box(mailbox, path) !in server {
        return NotFound;
      }
      var found := server[Box(mailbox, path)];
      if IsSystem(path, found) {
        return Forbidden;
      }
      var cut := LastIndexOf(path, found.delimiter);
      var target := if cut == -1 then name else (path[..cut] + [found.delimiter]) + name;
      if target == path {
        outcome := RequireOne(closing);
        return;
      }
      if !reply.Accepted? || !NoClash(server, mailbox, path, target, found.delimiter) {
        return Unavailable;
      }
      server := RenameTree(server, mailbox, path, target, found.delimiter);
      var ok := RenameRows(store, mailbox, path, target, found.delimiter);
      if !ok {
        return Rejected;
      }
      outcome := RequireOne(closing);
    }

    /** The listing that answers a request with its folder. */
    method RequireOne(closing: Reply) returns (outcome: Outcome)
      ensures outcome == AfterListing(closing)
    {
      if closing.Unreachable? {
        return Unavailable;
      }
      return Done;
    }

    method DeleteFolder(mailbox: Id, path: string, used: nat, listing: Reply, reply: Reply) returns (outcome: Outcome)
      requires Valid()
      modifies this`server, store`rows
      ensures Valid() && Effect(Current(), outcome) == DeleteEffect(old(Current()), mailbox, path, used, listing, reply)
    {
      if listing.Unreachable? {
        return Unavailable;
      }
      if Box(mailbox, path) !in server {
        return NotFound;
      }
      var found := server[Box(mailbox, path)];
      if IsSystem(path, found) {
        return Forbidden;
      }
      if used > 0 {
        return Conflict;
      }
      if !reply.Accepted? {
        return Unavailable;
      }
      server := server - {Box(mailbox, path)};
      DeleteRows(store, mailbox, path, found.delimiter);
      return Done;
    }

    method BulkMove(mailbox: Id, ids: seq<Id>, folder: string, answers: seq<Answers>) returns (processed: seq<Id>, failed: seq<Id>)
      requires Valid() && |answers| == |ids|
      modifies this`server, store`rows
      ensures Valid() && Bulk(Current(), processed, failed) == EachInTurn(MoveRun(mailbox, folder, answers), old(Current()), ids)
      ensures Distinct(processed)
    {
      ghost var run := MoveRun(mailbox, folder, answers);
      processed, failed := [], [];
      for i := 0 to |ids|
        invariant Valid() && Bulk(Current(), processed, failed) == EachInTurn(run, old(Current()), ids[..i])
      {
        assert ids[..i + 1][..i] == ids[..i];
        var outcome := Move(mailbox, ids[i], folder, answers[i].search, answers[i].reply);
        if outcome.Done? {
          processed := processed + [ids[i]];
        } else {
          failed := failed + [ids[i]];
        }
      }
      assert ids[..|ids|] == ids;
      BulkMoveAndRemoveConsume(mailbox, folder, answers);
      EachProcessedOnce(run, old(Current()), ids);
    }

    method BulkRemove(mailbox: Id, ids: seq<Id>, answers: seq<Answers>) returns (processed: seq<Id>, failed: seq<Id>)
      requires Valid() && |answers| == |ids|
      modifies this`server, store`rows
      ensures Valid() && Bulk(Current(), processed, failed) == EachInTurn(RemoveRun(mailbox, answers), old(Current()), ids)
      ensures Distinct(processed)
    {
      ghost var run := RemoveRun(mailbox, answers);
      processed, failed := [], [];
      for i := 0 to |ids|
        invariant Valid() && Bulk(Current(), processed, failed) == EachInTurn(run, old(Current()), ids[..i])
      {
        assert ids[..i + 1][..i] == ids[..i];
        var outcome := Remove(mailbox, ids[i], answers[i].search, answers[i].trash, answers[i].reply);
        if outcome.Done? {
          processed := processed + [ids[i]];
        } else {
          failed := failed + [ids[i]];
        }
      }
      assert ids[..|ids|] == ids;
      BulkMoveAndRemoveConsume(mailbox, "", answers);
      EachProcessedOnce(run, old(Current()), ids);
    }

    method BulkMarkRead(mailbox: Id, ids: seq<Id>, read: bool, answers: seq<Answers>) returns (processed: seq<Id>, failed: seq<Id>)
      requires Valid() && |answers| == |ids|
      modifies this`server, store`rows
      ensures Valid() && Bulk(Current(), processed, failed) == EachInTurn(MarkReadRun(mailbox, read, answers), old(Current()), ids)
    {
      ghost var run := MarkReadRun(mailbox, read, answers);
      processed, failed := [], [];
      for i := 0 to |ids|
        invariant Valid() && Bulk(Current(), processed, failed) == EachInTurn(run, old(Current()), ids[..i])
      {
        assert ids[..i + 1][..i] == ids[..i];
        var outcome := MarkRead(mailbox, ids[i], read, answers[i].reply);
        if outcome.Done? {
          processed := processed + [ids[i]];
        } else {
          failed := failed + [ids[i]];
        }
      }
      assert ids[..|ids|] == ids;
    }
  }
}
