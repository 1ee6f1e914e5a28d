/**
 * The table and the IMAP server together, under every operation that changes either:
 * src/messages/message.service.ts and src/folders/folder.service.ts. Every row is backed by a message
 * the server holds, whatever calls fail and whenever.
 */
module Mailroom {
  import opened Prelude
  import opened Wildcard
  import opened Projection
  import opened Folders
  import opened ImapServer

  datatype World = World(rows: Table, nextId: Id, server: Server)

  datatype Outcome = Done | NotFound | Unavailable | Forbidden | Conflict | Rejected

  datatype Effect = Effect(world: World, outcome: Outcome)

  function BoxOf(row: Row): Box {
    Box(row.mailbox, row.folder)
  }

  /** The row's folder holds its message, under the stored uid when there is one. */
  ghost predicate Backed(s: Server, row: Row) {
    && BoxOf(row) in s
    && match row.imapUid
       case Some(u) => Holding(s, BoxOf(row), u, row.messageId)
       case None => exists u :: Holding(s, BoxOf(row), u, row.messageId)
  }

  ghost predicate NoPhantoms(w: World) {
    && UniqueKeys(w.rows)
    && Below(w.rows, w.nextId)
    && ValidServer(w.server)
    && forall id | id in w.rows :: Backed(w.server, w.rows[id])
  }

  // ----- Locating a message -----

  datatype Resolution = Failed | Absent | At(uid: nat)

  /** resolveUid: the stored uid, or the last one a search finds. */
  ghost function Resolve(s: Server, row: Row, search: Reply): Resolution {
    if row.imapUid.Some? then At(row.imapUid.value)
    else if search.Unreachable? || BoxOf(row) !in s then Failed
    else if search.Accepted? && exists u :: IsLast(s, BoxOf(row), u, row.messageId) then
      var u :| IsLast(s, BoxOf(row), u, row.messageId);
      At(u)
    else Absent
  }

  predicate Owned(t: Table, mailbox: Id, id: Id) {
    id in t && t[id].mailbox == mailbox
  }

  /** setImapUid. */
  function WithUid(w: World, id: Id, uid: nat): World
    requires id in w.rows
  {
    w.(rows := w.rows[id := w.rows[id].(imapUid := Some(uid))])
  }

  function Drop(w: World, id: Id): World {
    w.(rows := w.rows - {id})
  }

  predicate Reaches(s: Server, b: Box, reply: Reply) {
    !reply.Unreachable? && b in s
  }

  // ----- The operations on messages -----

  function MarkReadEffect(w: World, mailbox: Id, id: Id, read: bool, reply: Reply): Effect {
    if !Owned(w.rows, mailbox, id) then Effect(w, NotFound)
    else
      var row := w.rows[id];
      if row.imapUid.Some? && !Reaches(w.server, BoxOf(row), reply) then Effect(w, Unavailable)
      else
        var server := if row.imapUid.Some? && reply.Accepted?
                      then SetSeen(w.server, BoxOf(row), row.imapUid.value, read) else w.server;
        Effect(w.(rows := w.rows[id := row.(read := read)], server := server), Done)
  }

  /** read: locate and fetch the message, then mark it read unless it is. */
  ghost function ReadEffect(w: World, mailbox: Id, id: Id, search: Reply, fetch: Reply, flag: Reply): Effect {
    if !Owned(w.rows, mailbox, id) then Effect(w, NotFound)
    else
      var row := w.rows[id];
      match Resolve(w.server, row, search)
      case Failed => Effect(w, Unavailable)
      case Absent => if row.read then Effect(w, Done) else MarkReadEffect(w, mailbox, id, true, flag)
      case At(uid) =>
        var w1 := WithUid(w, id, uid);
        if !Reaches(w.server, BoxOf(row), fetch) then Effect(w1, Unavailable)
        else if row.read then Effect(w1, Done)
        else MarkReadEffect(w1, mailbox, id, true, flag)
  }

  ghost function MoveEffect(w: World, mailbox: Id, id: Id, folder: string, search: Reply, reply: Reply): Effect {
    if !Owned(w.rows, mailbox, id) then Effect(w, NotFound)
    else
      var row := w.rows[id];
      match Resolve(w.server, row, search)
      case Failed => Effect(w, Unavailable)
      case Absent => Effect(Drop(w, id), Done)
      case At(uid) =>
        var w1 := WithUid(w, id, uid);
        if !Reaches(w.server, BoxOf(row), reply) then Effect(w1, Unavailable)
        else
          var server := if reply.Accepted? then MoveMail(w.server, BoxOf(row), uid, Box(mailbox, folder)) else w.server;
          Effect(Drop(w1, id).(server := server), Done)
  }

  /** The server after remove's call: into the trash folder, or destroyed when there is none or the message is in it. */
  function ServerAfterRemove(s: Server, row: Row, uid: nat, trash: Option<string>, reply: Reply): Server {
    if !reply.Accepted? then s
    else if trash.Some? && row.folder != trash.value then MoveMail(s, BoxOf(row), uid, Box(row.mailbox, trash.value))
    else Take(s, BoxOf(row), uid)
  }

  /** `trash` is what the folder listing answered, None when it failed. */
  ghost function RemoveEffect(w: World, mailbox: Id, id: Id, search: Reply, trash: Option<Option<string>>, reply: Reply): Effect {
    if !Owned(w.rows, mailbox, id) then Effect(w, NotFound)
    else
      var row := w.rows[id];
      match Resolve(w.server, row, search)
      case Failed => Effect(w, Unavailable)
      case Absent => if trash.None? then Effect(w, Unavailable) else Effect(Drop(w, id), Done)
      case At(uid) =>
        var w1 := WithUid(w, id, uid);
        if trash.None? || !Reaches(w.server, BoxOf(row), reply) then Effect(w1, Unavailable)
        else Effect(Drop(w1, id).(server := ServerAfterRemove(w.server, row, uid, trash.value, reply)), Done)
  }

  /** discardDraft; its caller ignores how it went. */
  ghost function DiscardEffect(w: World, mailbox: Id, id: Id, search: Reply, reply: Reply): Effect {
    if !Owned(w.rows, mailbox, id) then Effect(w, NotFound)
    else
      var row := w.rows[id];
      match Resolve(w.server, row, search)
      case Failed => Effect(w, Unavailable)
      case Absent => Effect(w, NotFound)
      case At(uid) =>
        var w1 := WithUid(w, id, uid);
        if !Reaches(w.server, BoxOf(row), reply) then Effect(w1, Unavailable)
        else Effect(Drop(w1, id).(server := if reply.Accepted? then Take(w.server, BoxOf(row), uid) else w.server), Done)
  }

  // ----- The operations on folders -----

  /** toUpperCase gives INBOX; the dotless i is the one character outside ASCII whose upper case is in it. */
  predicate IsInbox(path: string) {
    && |path| == 5
    && path[0] in {'I', 'i', '\U{131}'}
    && path[1] in {'N', 'n'}
    && path[2] in {'B', 'b'}
    && path[3] in {'O', 'o'}
    && path[4] in {'X', 'x'}
  }

  predicate IsSystem(path: string, folder: Folder) {
    IsInbox(path) || folder.specialUse.Some?
  }

  /** `closing` answers the folder listing that ends the request; by then the folder is renamed. */
  function RenameEffect(w: World, mailbox: Id, path: string, name: string, listing: Reply, reply: Reply, closing: Reply): Effect {
    var b := Box(mailbox, path);
    if listing.Unreachable? then Effect(w, Unavailable)
    else if b !in w.server then Effect(w, NotFound)
    else if IsSystem(path, w.server[b]) then Effect(w, Forbidden)
    else
      var delimiter := w.server[b].delimiter;
      var target := RenameTarget(path, name, delimiter);
      if target == path then Effect(w, AfterListing(closing))
      else if !reply.Accepted? || !NoClash(w.server, mailbox, path, target, delimiter) then Effect(w, Unavailable)
      else
        var moved := w.(server := RenameTree(w.server, mailbox, path, target, delimiter));
        var rows := RenameSubtree(w.rows, mailbox, path, target, delimiter);
        if UniqueKeys(rows) then Effect(moved.(rows := rows), AfterListing(closing)) else Effect(moved, Rejected)
  }

  function AfterListing(closing: Reply): Outcome {
    if closing.Unreachable? then Unavailable else Done
  }

  /** `used` counts the rules that move messages into the folder. */
  function DeleteEffect(w: World, mailbox: Id, path: string, used: nat, listing: Reply, reply: Reply): Effect {
    var b := Box(mailbox, path);
    if listing.Unreachable? then Effect(w, Unavailable)
    else if b !in w.server then Effect(w, NotFound)
    else if IsSystem(path, w.server[b]) then Effect(w, Forbidden)
    else if used > 0 then Effect(w, Conflict)
    else if !reply.Accepted? then Effect(w, Unavailable)
    else
      Effect(w.(rows := DeleteSubtree(w.rows, mailbox, path, w.server[b].delimiter), server := w.server - {b}), Done)
  }

  // ----- Rows keep their backing -----

  /** Losing one row's own message takes no other row's backing away. */
  lemma OthersStayBacked(w: World, id: Id, uid: nat, s: Server)
    requires NoPhantoms(w) && id in w.rows
    requires Holding(w.server, BoxOf(w.rows[id]), uid, w.rows[id].messageId)
    requires ValidServer(s) && s.Keys == w.server.Keys
    requires forall c, v, m | Holding(w.server, c, v, m) && !(c == BoxOf(w.rows[id]) && v == uid) :: Holding(s, c, v, m)
    ensures NoPhantoms(Drop(w, id).(server := s))
  {
    forall i | i in w.rows && i != id
      ensures Backed(s, w.rows[i])
    {
      var row := w.rows[i];
      assert KeyOf(row) != KeyOf(w.rows[id]);
      var u :| Holding(w.server, BoxOf(row), u, row.messageId) && (row.imapUid.Some? ==> u == row.imapUid.value);
      assert Holding(s, BoxOf(row), u, row.messageId);
    }
  }

  /** A located message is where the row says. */
  lemma ResolvedIsHeld(w: World, id: Id, search: Reply)
    requires NoPhantoms(w) && id in w.rows
    ensures var found := Resolve(w.server, w.rows[id], search);
            found.At? ==> Holding(w.server, BoxOf(w.rows[id]), found.uid, w.rows[id].messageId)
                          && NoPhantoms(WithUid(w, id, found.uid))
  {
    var row := w.rows[id];
    var found := Resolve(w.server, row, search);
    if found.At? {
      assert Holding(w.server, BoxOf(row), found.uid, row.messageId);
      var w1 := WithUid(w, id, found.uid);
      forall i | i in w1.rows
        ensures Backed(w1.server, w1.rows[i])
      {
        assert Backed(w.server, w.rows[i]);
      }
    }
  }

  lemma DropKeeps(w: World, id: Id)
    requires NoPhantoms(w)
    ensures NoPhantoms(Drop(w, id))
  {
  }

  lemma MarkReadKeeps(w: World, mailbox: Id, id: Id, read: bool, reply: Reply)
    requires NoPhantoms(w)
    ensures NoPhantoms(MarkReadEffect(w, mailbox, id, read, reply).world)
  {
    var w' := MarkReadEffect(w, mailbox, id, read, reply).world;
    if w' != w {
      var row := w.rows[id];
      if row.imapUid.Some? {
        SetSeenKeeps(w.server, BoxOf(row), row.imapUid.value, read);
      }
      forall i | i in w'.rows
        ensures Backed(w'.server, w'.rows[i])
      {
        assert Backed(w.server, w.rows[i]);
      }
    }
  }

  lemma ReadKeeps(w: World, mailbox: Id, id: Id, search: Reply, fetch: Reply, flag: Reply)
    requires NoPhantoms(w)
    ensures NoPhantoms(ReadEffect(w, mailbox, id, search, fetch, flag).world)
  {
    if Owned(w.rows, mailbox, id) {
      ResolvedIsHeld(w, id, search);
      MarkReadKeeps(w, mailbox, id, true, flag);
      var found := Resolve(w.server, w.rows[id], search);
      if found.At? {
        MarkReadKeeps(WithUid(w, id, found.uid), mailbox, id, true, flag);
      }
    }
  }

  lemma MoveKeeps(w: World, mailbox: Id, id: Id, folder: string, search: Reply, reply: Reply)
    requires NoPhantoms(w)
    ensures NoPhantoms(MoveEffect(w, mailbox, id, folder, search, reply).world)
  {
    if Owned(w.rows, mailbox, id) {
      ResolvedIsHeld(w, id, search);
      DropKeeps(w, id);
      var found := Resolve(w.server, w.rows[id], search);
      if found.At? {
        var w1 := WithUid(w, id, found.uid);
        DropKeeps(w1, id);
        MoveMailKeeps(w.server, BoxOf(w.rows[id]), found.uid, Box(mailbox, folder));
        OthersStayBacked(w1, id, found.uid, MoveMail(w.server, BoxOf(w.rows[id]), found.uid, Box(mailbox, folder)));
      }
    }
  }

  lemma ServerAfterRemoveKeeps(s: Server, row: Row, uid: nat, trash: Option<string>, reply: Reply)
    requires ValidServer(s)
    ensures var s' := ServerAfterRemove(s, row, uid, trash, reply);
            && ValidServer(s') && s'.Keys == s.Keys
            && (forall c, v, m | Holding(s, c, v, m) && !(c == BoxOf(row) && v == uid) :: Holding(s', c, v, m))
  {
    TakeKeeps(s, BoxOf(row), uid);
    if trash.Some? {
      MoveMailKeeps(s, BoxOf(row), uid, Box(row.mailbox, trash.value));
    }
  }

  lemma RemoveKeeps(w: World, mailbox: Id, id: Id, search: Reply, trash: Option<Option<string>>, reply: Reply)
    requires NoPhantoms(w)
    ensures NoPhantoms(RemoveEffect(w, mailbox, id, search, trash, reply).world)
  {
    if Owned(w.rows, mailbox, id) {
      ResolvedIsHeld(w, id, search);
      DropKeeps(w, id);
      var found := Resolve(w.server, w.rows[id], search);
      if found.At? && trash.Some? {
        var w1 := WithUid(w, id, found.uid);
        ServerAfterRemoveKeeps(w.server, w.rows[id], found.uid, trash.value, reply);
        OthersStayBacked(w1, id, found.uid, ServerAfterRemove(w.server, w.rows[id], found.uid, trash.value, reply));
      }
    }
  }

  lemma DiscardKeeps(w: World, mailbox: Id, id: Id, search: Reply, reply: Reply)
    requires NoPhantoms(w)
    ensures NoPhantoms(DiscardEffect(w, mailbox, id, search, reply).world)
  {
    if Owned(w.rows, mailbox, id) {
      ResolvedIsHeld(w, id, search);
      var found := Resolve(w.server, w.rows[id], search);
      if found.At? {
        var w1 := WithUid(w, id, found.uid);
        DropKeeps(w1, id);
        TakeKeeps(w.server, BoxOf(w.rows[id]), found.uid);
        OthersStayBacked(w1, id, found.uid, Take(w.server, BoxOf(w.rows[id]), found.uid));
      }
    }
  }

  // ----- Where messages go -----

  /** A folder that holds a message has a last copy of it. */
  lemma {:induction false} LastExists(s: Server, b: Box, u: nat, messageId: string)
    requires ValidServer(s) && Holding(s, b, u, messageId)
    ensures exists v :: IsLast(s, b, v, messageId)
    decreases s[b].uidNext - u
  {
    if v :| v in s[b].mail && s[b].mail[v].messageId == messageId && v > u {
      LastExists(s, b, v, messageId);
    } else {
      assert IsLast(s, b, u, messageId);
    }
  }

  /** A backed row is always located when the search gets through. */
  lemma BackedIsLocated(w: World, id: Id)
    requires NoPhantoms(w) && id in w.rows
    ensures var found := Resolve(w.server, w.rows[id], Accepted);
            found.At? && Holding(w.server, BoxOf(w.rows[id]), found.uid, w.rows[id].messageId)
  {
    var row := w.rows[id];
    assert Backed(w.server, row);
    if row.imapUid.None? {
      var u :| Holding(w.server, BoxOf(row), u, row.messageId);
      LastExists(w.server, BoxOf(row), u, row.messageId);
    }
  }

  /** The message the row stood for is now the newest of the target, and is gone from its old place. */
  ghost predicate Relocated(s: Server, row: Row, target: Box, s': Server) {
    exists u :: Holding(s, BoxOf(row), u, row.messageId) && RelocatedFrom(s, BoxOf(row), u, target, s')
  }

  ghost predicate RelocatedFrom(s: Server, b: Box, u: nat, target: Box, s': Server) {
    && b in s && u in s[b].mail && target in s && s'.Keys == s.Keys
    && s[target].uidNext in s'[target].mail
    && s'[target].mail[s[target].uidNext] == s[b].mail[u].(uid := s[target].uidNext)
    && u !in s'[b].mail
    && forall c, v | c in s && v in s[c].mail && !(c == b && v == u) :: v in s'[c].mail && s'[c].mail[v] == s[c].mail[v]
  }

  lemma MoveMailRelocates(s: Server, b: Box, u: nat, target: Box)
    requires ValidServer(s) && b in s && u in s[b].mail && target in s
    ensures RelocatedFrom(s, b, u, target, MoveMail(s, b, u, target))
  {
  }

  /** Move, and remove outside the trash, relocate the message and drop the row; no other message changes. */
  lemma MoveAndRemoveRelocate(w: World, mailbox: Id, id: Id, folder: string)
    requires NoPhantoms(w) && Owned(w.rows, mailbox, id) && Box(mailbox, folder) in w.server
    ensures var e := MoveEffect(w, mailbox, id, folder, Accepted, Accepted);
            && e.outcome.Done? && e.world.rows == w.rows - {id}
            && Relocated(w.server, w.rows[id], Box(mailbox, folder), e.world.server)
    ensures w.rows[id].folder != folder ==>
              RemoveEffect(w, mailbox, id, Accepted, Some(Some(folder)), Accepted) == MoveEffect(w, mailbox, id, folder, Accepted, Accepted)
  {
    BackedIsLocated(w, id);
    var found := Resolve(w.server, w.rows[id], Accepted);
    MoveMailRelocates(w.server, BoxOf(w.rows[id]), found.uid, Box(mailbox, folder));
    assert Drop(WithUid(w, id, found.uid), id).rows == w.rows - {id};
  }

  /** The mark reached the copy of this uid on the server. */
  predicate Flagged(row: Row, reply: Reply, u: nat) {
    reply.Accepted? && row.imapUid == Some(u)
  }

  /** Marking a message changes its row and, when its uid is stored and the call goes through, that copy's
      flag, and nothing else. */
  lemma MarkReadChanges(w: World, mailbox: Id, id: Id, read: bool, reply: Reply)
    requires NoPhantoms(w) && Owned(w.rows, mailbox, id)
    ensures var e, row := MarkReadEffect(w, mailbox, id, read, reply), w.rows[id];
            var b := BoxOf(row);
            && (e.outcome.Done? <==> row.imapUid.None? || !reply.Unreachable?)
            && (e.outcome.Done? ==>
                  && e.world.rows == w.rows[id := row.(read := read)]
                  && e.world.server.Keys == w.server.Keys
                  && (forall c | c in w.server && c != b :: e.world.server[c] == w.server[c])
                  && e.world.server[b].mail.Keys == w.server[b].mail.Keys
                  && forall u | u in w.server[b].mail ::
                       e.world.server[b].mail[u] == if Flagged(row, reply, u) then w.server[b].mail[u].(seen := read) else w.server[b].mail[u])
  {
    assert Backed(w.server, w.rows[id]);
  }

  /** Row and last copy agree afterwards exactly when that copy was the one flagged or had the flag already. */
  lemma MarkReadAgreesExactly(w: World, mailbox: Id, id: Id, read: bool, reply: Reply, last: nat)
    requires NoPhantoms(w) && Owned(w.rows, mailbox, id)
    requires IsLast(w.server, BoxOf(w.rows[id]), last, w.rows[id].messageId)
    requires MarkReadEffect(w, mailbox, id, read, reply).outcome.Done?
    ensures var w', row := MarkReadEffect(w, mailbox, id, read, reply).world, w.rows[id];
            var b := BoxOf(row);
            && w'.rows[id].read == read
            && IsLast(w'.server, b, last, row.messageId)
            && (w'.server[b].mail[last].seen == read <==> Flagged(row, reply, last) || w.server[b].mail[last].seen == read)
  {
    MarkReadChanges(w, mailbox, id, read, reply);
  }

  // ----- Folders -----

  lemma RenamedRowFollowsBox(row: Row, mailbox: Id, path: string, target: string, delimiter: char)
    requires LIKE.Plain(path + [delimiter])
    ensures BoxOf(RenamedRow(row, mailbox, path, target, delimiter)) == RenamedBox(BoxOf(row), mailbox, path, target, delimiter)
  {
    SubtreeExactness(path, delimiter);
  }

  lemma RenamedBoxHolds(s: Server, b: Box, u: nat, messageId: string, mailbox: Id, path: string, target: string, delimiter: char)
    requires NoClash(s, mailbox, path, target, delimiter) && Holding(s, b, u, messageId)
    ensures Holding(RenameTree(s, mailbox, path, target, delimiter), RenamedBox(b, mailbox, path, target, delimiter), u, messageId)
  {
    RenameTreeMoves(s, mailbox, path, target, delimiter);
  }

  lemma RenamedRowIsBacked(s: Server, row: Row, mailbox: Id, path: string, target: string, delimiter: char)
    requires LIKE.Plain(path + [delimiter]) && NoClash(s, mailbox, path, target, delimiter)
    requires Backed(s, row)
    ensures Backed(RenameTree(s, mailbox, path, target, delimiter), RenamedRow(row, mailbox, path, target, delimiter))
  {
    RenamedRowFollowsBox(row, mailbox, path, target, delimiter);
    var u :| Holding(s, BoxOf(row), u, row.messageId) && (row.imapUid.Some? ==> u == row.imapUid.value);
    RenamedBoxHolds(s, BoxOf(row), u, row.messageId, mailbox, path, target, delimiter);
  }

  /** Two rows with one key after the rename had one key before. */
  lemma RenamedKeysDiffer(w: World, i: Id, j: Id, mailbox: Id, path: string, target: string, delimiter: char)
    requires NoPhantoms(w) && i in w.rows && j in w.rows
    requires LIKE.Plain(path + [delimiter]) && NoClash(w.server, mailbox, path, target, delimiter)
    requires KeyOf(RenamedRow(w.rows[i], mailbox, path, target, delimiter)) == KeyOf(RenamedRow(w.rows[j], mailbox, path, target, delimiter))
    ensures i == j
  {
    assert Backed(w.server, w.rows[i]) && Backed(w.server, w.rows[j]);
    RenamedRowFollowsBox(w.rows[i], mailbox, path, target, delimiter);
    RenamedRowFollowsBox(w.rows[j], mailbox, path, target, delimiter);
    RenamedBoxesDiffer(w.server, BoxOf(w.rows[i]), BoxOf(w.rows[j]), mailbox, path, target, delimiter);
    assert KeyOf(w.rows[i]) == KeyOf(w.rows[j]);
  }

  lemma RenamedWorldIsSound(w: World, mailbox: Id, path: string, target: string, delimiter: char)
    requires NoPhantoms(w)
    requires LIKE.Plain(path + [delimiter]) && NoClash(w.server, mailbox, path, target, delimiter)
    ensures NoPhantoms(World(RenameSubtree(w.rows, mailbox, path, target, delimiter), w.nextId,
                             RenameTree(w.server, mailbox, path, target, delimiter)))
  {
    var rows, server := RenameSubtree(w.rows, mailbox, path, target, delimiter), RenameTree(w.server, mailbox, path, target, delimiter);
    forall i, j | i in rows && j in rows && KeyOf(rows[i]) == KeyOf(rows[j])
      ensures i == j
    {
      RenamedKeysDiffer(w, i, j, mailbox, path, target, delimiter);
    }
    assert ValidServer(server) by {
      RenameTreeMoves(w.server, mailbox, path, target, delimiter);
    }
    forall id | id in rows
      ensures Backed(server, rows[id])
    {
      RenamedRowIsBacked(w.server, w.rows[id], mailbox, path, target, delimiter);
    }
  }

  /** With a plain path the rename keeps every row backed, and the unique index never gets in the way. */
  lemma RenameKeeps(w: World, mailbox: Id, path: string, name: string, listing: Reply, reply: Reply, closing: Reply)
    requires NoPhantoms(w)
    requires Box(mailbox, path) in w.server ==> LIKE.Plain(path + [w.server[Box(mailbox, path)].delimiter])
    ensures var effect := RenameEffect(w, mailbox, path, name, listing, reply, closing);
            NoPhantoms(effect.world) && !effect.outcome.Rejected?
  {
    var effect := RenameEffect(w, mailbox, path, name, listing, reply, closing);
    if Box(mailbox, path) in w.server {
      var delimiter := w.server[Box(mailbox, path)].delimiter;
      var target := RenameTarget(path, name, delimiter);
      if NoClash(w.server, mailbox, path, target, delimiter) {
        RenamedWorldIsSound(w, mailbox, path, target, delimiter);
      }
    }
  }

  lemma DeleteKeeps(w: World, mailbox: Id, path: string, used: nat, listing: Reply, reply: Reply)
    requires NoPhantoms(w)
    ensures NoPhantoms(DeleteEffect(w, mailbox, path, used, listing, reply).world)
  {
    var w' := DeleteEffect(w, mailbox, path, used, listing, reply).world;
    if w' != w {
      forall id | id in w'.rows
        ensures Backed(w'.server, w'.rows[id])
      {
        var row := w.rows[id];
        assert BoxOf(row) != Box(mailbox, path);
        var u :| Holding(w.server, BoxOf(row), u, row.messageId) && (row.imapUid.Some? ==> u == row.imapUid.value);
        assert Holding(w'.server, BoxOf(row), u, row.messageId);
      }
    }
  }
}
