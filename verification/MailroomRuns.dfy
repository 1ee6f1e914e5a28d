/** Runs of the mailroom: any interleaving of requests, deliveries and failing calls. */
module MailroomRuns {
  import opened Prelude
  import opened Wildcard
  import opened KeepBest
  import opened Projection
  import opened Folders
  import opened ImapServer
  import opened Mailroom
  import Delivery

  datatype Step =
    | Sync(mailbox: Id, folder: string, listing: Option<seq<ImapMessage>>, parents: map<string, string>)
    | MarkRead(mailbox: Id, id: Id, read: bool, reply: Reply)
    | Read(mailbox: Id, id: Id, search: Reply, fetch: Reply, reply: Reply)
    | Move(mailbox: Id, id: Id, folder: string, search: Reply, reply: Reply)
    | Remove(mailbox: Id, id: Id, search: Reply, trash: Option<Option<string>>, reply: Reply)
    | Discard(mailbox: Id, id: Id, search: Reply, reply: Reply)
    | Rename(mailbox: Id, path: string, name: string, listed: Reply, reply: Reply, closing: Reply)
    | Delete(mailbox: Id, path: string, used: nat, listed: Reply, reply: Reply)
    // a delivery announced by the mail plane
    | Announce(delivery: Delivery.Message, thread: Option<string>)
    // the server takes a message in: a delivery, a sent copy or a draft
    | Store(box: Box, message: ImapMessage)
    | Create(box: Box, delimiter: char, specialUse: Option<string>)

  ghost predicate ListingOf(s: Server, b: Box, listing: seq<ImapMessage>) {
    && b in s
    && forall m :: m in listing <==> exists u :: u in s[b].mail && s[b].mail[u] == m
  }

  /** What the server guarantees: listings are truthful, and a delivery is announced once it is stored. */
  ghost predicate Possible(w: World, step: Step) {
    match step
    case Sync(mailbox, folder, listing, _) => listing.Some? ==> ListingOf(w.server, Box(mailbox, folder), listing.value)
    case Announce(m, thread) => Backed(w.server, Delivery.NewRow(m, thread))
    case _ => true
  }

  ghost predicate PlainRename(w: World, step: Step) {
    step.Rename? && Box(step.mailbox, step.path) in w.server ==>
      LIKE.Plain(step.path + [w.server[Box(step.mailbox, step.path)].delimiter])
  }

  ghost function After(w: World, step: Step): World {
    match step
    case Sync(mailbox, folder, listing, parents) => SyncEffect(w, mailbox, folder, listing, parents)
    case MarkRead(mailbox, id, read, reply) => MarkReadEffect(w, mailbox, id, read, reply).world
    case Read(mailbox, id, search, fetch, reply) => ReadEffect(w, mailbox, id, search, fetch, reply).world
    case Move(mailbox, id, folder, search, reply) => MoveEffect(w, mailbox, id, folder, search, reply).world
    case Remove(mailbox, id, search, trash, reply) => RemoveEffect(w, mailbox, id, search, trash, reply).world
    case Discard(mailbox, id, search, reply) => DiscardEffect(w, mailbox, id, search, reply).world
    case Rename(mailbox, path, name, listed, reply, closing) => RenameEffect(w, mailbox, path, name, listed, reply, closing).world
    case Delete(mailbox, path, used, listed, reply) => DeleteEffect(w, mailbox, path, used, listed, reply).world
    case Announce(m, thread) => AnnounceEffect(w, m, thread)
    case Store(b, m) => w.(server := Put(w.server, b, m))
    case Create(b, delimiter, use) =>
      if b in w.server then w else w.(server := w.server[b := Folder(use, delimiter, 0, map[])])
  }

  ghost function SyncEffect(w: World, mailbox: Id, folder: string, listing: Option<seq<ImapMessage>>, parents: map<string, string>): World {
    if listing.None? then w
    else w.(rows := Synced(w.rows, w.nextId, mailbox, folder, listing.value, parents),
            nextId := w.nextId + |Usable(listing.value)|)
  }

  ghost function AnnounceEffect(w: World, m: Delivery.Message, thread: Option<string>): World {
    var after := Delivery.Received(Delivery.State(w.rows, w.nextId, []), m, thread);
    w.(rows := after.rows, nextId := after.nextId)
  }

  // ----- Folder syncs -----

  lemma UsableIsOnServer(s: Server, b: Box, listing: seq<ImapMessage>, m: ImapMessage)
    requires ValidServer(s) && ListingOf(s, b, listing) && m in Usable(listing)
    ensures Holding(s, b, m.uid, m.messageId) && s[b].mail[m.uid] == m && IsLast(s, b, m.uid, m.messageId)
  {
    UsableMessages(listing);
    var u :| u in s[b].mail && s[b].mail[u] == m;
    forall v | v in s[b].mail && s[b].mail[v].messageId == m.messageId
      ensures v <= m.uid
    {
      assert s[b].mail[v] in listing;
    }
  }

  /** After a sync of a truthful listing each row of the folder is the last copy of its message on the
      server, with that copy's flags and headers, and every identified message has a row. */
  lemma SyncShowsServer(w: World, mailbox: Id, folder: string, listing: seq<ImapMessage>, parents: map<string, string>)
    requires NoPhantoms(w) && ListingOf(w.server, Box(mailbox, folder), listing)
    ensures var w' := SyncEffect(w, mailbox, folder, Some(listing), parents);
            var b := Box(mailbox, folder);
            && (forall id | id in w'.rows && BoxOf(w'.rows[id]) == b ::
                  && w'.rows[id].imapUid.Some?
                  && IsLast(w.server, b, w'.rows[id].imapUid.value, w'.rows[id].messageId)
                  && Carries(w'.rows[id], w.server[b].mail[w'.rows[id].imapUid.value]))
            && (forall u | u in w.server[b].mail && w.server[b].mail[u].messageId != "" ::
                  Holds(w'.rows, Key(mailbox, folder, w.server[b].mail[u].messageId)))
  {
    var w' := SyncEffect(w, mailbox, folder, Some(listing), parents);
    var b := Box(mailbox, folder);
    SyncMirrors(w.rows, w.nextId, mailbox, folder, listing, parents);
    UsableMessages(listing);
    forall id | id in w'.rows && BoxOf(w'.rows[id]) == b
      ensures w'.rows[id].imapUid.Some?
      ensures IsLast(w.server, b, w'.rows[id].imapUid.value, w'.rows[id].messageId)
      ensures Carries(w'.rows[id], w.server[b].mail[w'.rows[id].imapUid.value])
    {
      assert w'.rows[id].In(mailbox, folder);
      var m :| m in Usable(listing) && Shows(w'.rows[id], m, parents);
      UsableIsOnServer(w.server, b, listing, m);
    }
    forall u | u in w.server[b].mail && w.server[b].mail[u].messageId != ""
      ensures Holds(w'.rows, Key(mailbox, folder, w.server[b].mail[u].messageId))
    {
      var m := w.server[b].mail[u];
      assert m in listing;
      var i :| 0 <= i < |Usable(listing)| && MESSAGE_ID(Usable(listing)[i]) == m.messageId;
      assert Usable(listing)[i] in Usable(listing);
    }
  }

  lemma SyncKeeps(w: World, mailbox: Id, folder: string, listing: seq<ImapMessage>, parents: map<string, string>)
    requires NoPhantoms(w) && ListingOf(w.server, Box(mailbox, folder), listing)
    ensures NoPhantoms(SyncEffect(w, mailbox, folder, Some(listing), parents))
  {
    var w' := SyncEffect(w, mailbox, folder, Some(listing), parents);
    SyncMirrors(w.rows, w.nextId, mailbox, folder, listing, parents);
    SyncShowsServer(w, mailbox, folder, listing, parents);
    forall id | id in w'.rows
      ensures Backed(w'.server, w'.rows[id])
    {
      if BoxOf(w'.rows[id]) != Box(mailbox, folder) {
        assert id in w.rows && w'.rows[id] == w.rows[id];
      }
    }
  }

  /** A row of a message the listing identifies survives the sync with its key. */
  lemma ListedRowSurvives(t: Table, next: Id, id: Id, listing: seq<ImapMessage>, parents: map<string, string>, m: ImapMessage)
    requires UniqueKeys(t) && Below(t, next) && id in t && t[id].messageId != ""
    requires m in listing && m.messageId == t[id].messageId
    ensures var t' := Synced(t, next, t[id].mailbox, t[id].folder, listing, parents);
            id in t' && KeyOf(t'[id]) == KeyOf(t[id])
  {
    SyncMirrors(t, next, t[id].mailbox, t[id].folder, listing, parents);
    assert HasKey(Usable(listing), t[id].messageId, MESSAGE_ID) by {
      UsableMessages(listing);
    }
    NamedRowSurvives(t, Synced(t, next, t[id].mailbox, t[id].folder, listing, parents), id, Usable(listing), parents);
  }

  /** After a truthful sync a row of an identified message shows the flag of the last copy. */
  lemma SyncShowsFlag(w: World, id: Id, listing: seq<ImapMessage>, parents: map<string, string>, last: nat)
    requires NoPhantoms(w) && id in w.rows && w.rows[id].messageId != ""
    requires ListingOf(w.server, BoxOf(w.rows[id]), listing)
    requires IsLast(w.server, BoxOf(w.rows[id]), last, w.rows[id].messageId)
    ensures var row := w.rows[id];
            var w' := SyncEffect(w, row.mailbox, row.folder, Some(listing), parents);
            id in w'.rows && w'.rows[id].read == w.server[BoxOf(row)].mail[last].seen
  {
    var row := w.rows[id];
    var m := w.server[BoxOf(row)].mail[last];
    assert m in listing;
    ListedRowSurvives(w.rows, w.nextId, id, listing, parents, m);
    SyncShowsServer(w, row.mailbox, row.folder, listing, parents);
  }

  /** A mark survives the next sync of its folder exactly when it reached the last copy, or that copy had the flag already. */
  lemma MarkSurvivesSyncExactly(w: World, mailbox: Id, id: Id, read: bool, reply: Reply, last: nat,
                                listing: seq<ImapMessage>, parents: map<string, string>)
    requires NoPhantoms(w) && Owned(w.rows, mailbox, id) && w.rows[id].messageId != ""
    requires IsLast(w.server, BoxOf(w.rows[id]), last, w.rows[id].messageId)
    requires MarkReadEffect(w, mailbox, id, read, reply).outcome.Done?
    requires ListingOf(MarkReadEffect(w, mailbox, id, read, reply).world.server, BoxOf(w.rows[id]), listing)
    ensures var marked := MarkReadEffect(w, mailbox, id, read, reply).world;
            var synced := SyncEffect(marked, mailbox, w.rows[id].folder, Some(listing), parents);
            && marked.rows[id].read == read
            && id in synced.rows
            && (synced.rows[id].read == read
                <==> Flagged(w.rows[id], reply, last) || w.server[BoxOf(w.rows[id])].mail[last].seen == read)
  {
    MarkReadAgreesExactly(w, mailbox, id, read, reply, last);
    MarkReadKeeps(w, mailbox, id, read, reply);
    SyncShowsFlag(MarkReadEffect(w, mailbox, id, read, reply).world, id, listing, parents, last);
  }

  /** A message delivered without a uid and not read yet. */
  ghost function JustDelivered(folder: string): World {
    World(map[0 := Row(0, folder, "m", None, "", None, None, None, None, 0, None, false)], 1,
          map[Box(0, folder) := Folder(None, '/', 1, map[0 := Letter()])])
  }

  /** Marking it read never reaches the server, and the next sync takes the mark back. */
  lemma UnlocatedMarkIsLost(folder: string, listing: seq<ImapMessage>, parents: map<string, string>)
    requires ListingOf(JustDelivered(folder).server, Box(0, folder), listing)
    ensures var w := JustDelivered(folder);
            var marked := MarkReadEffect(w, 0, 0, true, Accepted).world;
            var synced := SyncEffect(marked, 0, folder, Some(listing), parents);
            && NoPhantoms(w) && marked.server == w.server && marked.rows[0].read
            && 0 in synced.rows && !synced.rows[0].read
  {
    var w := JustDelivered(folder);
    assert Holding(w.server, Box(0, folder), 0, "m");
    assert IsLast(w.server, Box(0, folder), 0, "m");
    assert NoPhantoms(w);
    MarkSurvivesSyncExactly(w, 0, 0, true, Accepted, 0, listing, parents);
  }

  // ----- Deliveries and new folders -----

  lemma AnnounceKeeps(w: World, m: Delivery.Message, thread: Option<string>)
    requires NoPhantoms(w) && Backed(w.server, Delivery.NewRow(m, thread))
    ensures NoPhantoms(AnnounceEffect(w, m, thread))
  {
    if !Holds(w.rows, m.Key()) {
      var w' := AnnounceEffect(w, m, thread);
      assert KeyOf(Delivery.NewRow(m, thread)) == m.Key();
      forall i, j | i in w'.rows && j in w'.rows && KeyOf(w'.rows[i]) == KeyOf(w'.rows[j])
        ensures i == j
      {
      }
    }
  }

  lemma MoreHeldKeeps(w: World, s: Server)
    requires NoPhantoms(w) && ValidServer(s) && w.server.Keys <= s.Keys
    requires forall c, u, m | Holding(w.server, c, u, m) :: Holding(s, c, u, m)
    ensures NoPhantoms(w.(server := s))
  {
    forall id | id in w.rows
      ensures Backed(s, w.rows[id])
    {
      var row := w.rows[id];
      var u :| Holding(w.server, BoxOf(row), u, row.messageId) && (row.imapUid.Some? ==> u == row.imapUid.value);
      assert Holding(s, BoxOf(row), u, row.messageId);
    }
  }

  /** A delivery announced for a free place adds its row and touches neither other rows nor the server; for a place taken
      it changes nothing. */
  lemma AnnouncedRow(w: World, m: Delivery.Message, thread: Option<string>)
    requires Below(w.rows, w.nextId)
    ensures var w' := After(w, Announce(m, thread));
            && w'.server == w.server
            && if exists id :: id in w.rows && KeyOf(w.rows[id]) == Key(m.mailbox, m.folder, m.messageId) then w'.rows == w.rows
               else w'.rows == w.rows[w.nextId := w'.rows[w.nextId]] && Delivery.Records(w'.rows[w.nextId], m) && w.nextId < w'.nextId
  {
    if Holds(w.rows, m.Key()) {
      var id :| id in w.rows && KeyOf(w.rows[id]) == m.Key();
    }
  }

  /** A folder is created empty, unless there is one, and nothing else changes. */
  lemma CreatedFolder(w: World, b: Box, delimiter: char, use: Option<string>)
    ensures After(w, Create(b, delimiter, use)) == if b in w.server then w else w.(server := w.server[b := Folder(use, delimiter, 0, map[])])
  {
  }

  // ----- Runs -----

  lemma StepKeeps(w: World, step: Step)
    requires NoPhantoms(w) && Possible(w, step) && PlainRename(w, step)
    ensures NoPhantoms(After(w, step))
  {
    match step
    case Sync(mailbox, folder, listing, parents) =>
      if listing.Some? {
        SyncKeeps(w, mailbox, folder, listing.value, parents);
      }
    case MarkRead(mailbox, id, read, reply) => MarkReadKeeps(w, mailbox, id, read, reply);
    case Read(mailbox, id, search, fetch, reply) => ReadKeeps(w, mailbox, id, search, fetch, reply);
    case Move(mailbox, id, folder, search, reply) => MoveKeeps(w, mailbox, id, folder, search, reply);
    case Remove(mailbox, id, search, trash, reply) => RemoveKeeps(w, mailbox, id, search, trash, reply);
    case Discard(mailbox, id, search, reply) => DiscardKeeps(w, mailbox, id, search, reply);
    case Rename(mailbox, path, name, listed, reply, closing) => RenameKeeps(w, mailbox, path, name, listed, reply, closing);
    case Delete(mailbox, path, used, listed, reply) => DeleteKeeps(w, mailbox, path, used, listed, reply);
    case Announce(m, thread) => AnnounceKeeps(w, m, thread);
    case Store(b, m) =>
      PutKeeps(w.server, b, m);
      MoreHeldKeeps(w, Put(w.server, b, m));
    case Create(b, delimiter, use) =>
      MoreHeldKeeps(w, After(w, step).server);
  }

  ghost predicate IsRun(worlds: seq<World>, steps: seq<Step>) {
    && |worlds| == |steps| + 1
    && forall i | 0 <= i < |steps| :: Possible(worlds[i], steps[i]) && worlds[i + 1] == After(worlds[i], steps[i])
  }

  /** No run ever shows a row whose message its folder does not hold. */
  lemma {:induction false} NoPhantomsEver(worlds: seq<World>, steps: seq<Step>, n: nat)
    requires IsRun(worlds, steps) && NoPhantoms(worlds[0])
    requires forall i | 0 <= i < |steps| :: PlainRename(worlds[i], steps[i])
    requires n < |worlds|
    ensures NoPhantoms(worlds[n])
  {
    if n > 0 {
      NoPhantomsEver(worlds, steps, n - 1);
      StepKeeps(worlds[n - 1], steps[n - 1]);
    }
  }

  // ----- Which renames are safe -----

  ghost predicate RenameIsSafe(path: string, delimiter: char) {
    forall w: World, mailbox: Id, name: string, listed: Reply, reply: Reply, closing: Reply
      | NoPhantoms(w) && Box(mailbox, path) in w.server && w.server[Box(mailbox, path)].delimiter == delimiter ::
      NoPhantoms(RenameEffect(w, mailbox, path, name, listed, reply, closing).world)
  }

  ghost function Letter(): ImapMessage {
    ImapMessage(0, "m", "", [], None, None, 0, false)
  }

  /** A mailbox with an empty folder and one message in another. */
  ghost function TwoFolders(path: string, folder: string, delimiter: char): World {
    World(map[0 := Row(0, folder, "m", Some(0), "", None, None, None, None, 0, None, false)], 1,
          map[Box(0, path) := Folder(None, delimiter, 0, map[]),
              Box(0, folder) := Folder(None, delimiter, 1, map[0 := Letter()])])
  }

  lemma TwoFoldersIsSound(path: string, folder: string, delimiter: char)
    requires path != folder
    ensures NoPhantoms(TwoFolders(path, folder, delimiter))
  {
    var w := TwoFolders(path, folder, delimiter);
    assert Holding(w.server, Box(0, folder), 0, "m");
  }

  lemma NotWhereTheRowWent(b: Box, row: Row, path: string, target: string, delimiter: char)
    requires b == Box(0, path) || b == Box(0, row.folder)
    requires row.mailbox == 0 && |row.folder| > |path| && |target| > |row.folder|
    requires InSubtree(row.folder, path, delimiter) != Under(row.folder, path, delimiter)
    ensures BoxOf(RenamedRow(row, 0, path, target, delimiter)) != RenamedBox(b, 0, path, target, delimiter)
  {
    var b' := RenamedBox(b, 0, path, target, delimiter);
    if Under(row.folder, path, delimiter) {
      assert |b'.path| >= |target|;
    } else {
      assert |RenamedRow(row, 0, path, target, delimiter).folder| > |target|;
    }
  }

  lemma OnlyTheTwo(path: string, folder: string, delimiter: char, b: Box)
    ensures b in TwoFolders(path, folder, delimiter).server <==> b == Box(0, path) || b == Box(0, folder)
  {
  }

  lemma TwoFoldersDoNotClash(path: string, folder: string, target: string, delimiter: char)
    requires |folder| > |path| && |target| > |folder|
    ensures NoClash(TwoFolders(path, folder, delimiter).server, 0, path, target, delimiter)
  {
    var s := TwoFolders(path, folder, delimiter).server;
    forall b | b in s && MovesBox(b, 0, path, delimiter)
      ensures RenamedBox(b, 0, path, target, delimiter) !in s
    {
      var b' := RenamedBox(b, 0, path, target, delimiter);
      assert |b'.path| >= |target|;
      OnlyTheTwo(path, folder, delimiter, b');
    }
  }

  /** A folder the clause and the server disagree about is left without its row's message. */
  lemma DisagreementMakesPhantom(path: string, folder: string, target: string, delimiter: char)
    requires |folder| > |path| && |target| > |folder|
    requires InSubtree(folder, path, delimiter) != Under(folder, path, delimiter)
    ensures var w := TwoFolders(path, folder, delimiter);
            !Backed(RenameTree(w.server, 0, path, target, delimiter), RenamedRow(w.rows[0], 0, path, target, delimiter))
  {
    var w := TwoFolders(path, folder, delimiter);
    var b' := BoxOf(RenamedRow(w.rows[0], 0, path, target, delimiter));
    if b' in RenameTree(w.server, 0, path, target, delimiter) {
      var b :| b in w.server && b' == RenamedBox(b, 0, path, target, delimiter);
      OnlyTheTwo(path, folder, delimiter, b);
      NotWhereTheRowWent(b, w.rows[0], path, target, delimiter);
    }
  }

  /** Renaming a folder is safe for every mailroom just when its path and delimiter are plain, or the
      rename is refused because the path is the inbox. */
  lemma RenameIsSafeExactly(path: string, delimiter: char)
    ensures RenameIsSafe(path, delimiter) <==> IsInbox(path) || LIKE.Plain(path + [delimiter])
  {
    if LIKE.Plain(path + [delimiter]) {
      forall w: World, mailbox: Id, name: string, listed: Reply, reply: Reply, closing: Reply
        | NoPhantoms(w) && Box(mailbox, path) in w.server && w.server[Box(mailbox, path)].delimiter == delimiter
        ensures NoPhantoms(RenameEffect(w, mailbox, path, name, listed, reply, closing).world)
      {
        RenameKeeps(w, mailbox, path, name, listed, reply, closing);
      }
    } else if !IsInbox(path) {
      var folder := WrongLongText(LIKE, path + [delimiter]);
      var name := seq(|folder| + 1, i => 'x');
      var target := RenameTarget(path, name, delimiter);
      var w := TwoFolders(path, folder, delimiter);
      TwoFoldersIsSound(path, folder, delimiter);
      TwoFoldersDoNotClash(path, folder, target, delimiter);
      DisagreementMakesPhantom(path, folder, target, delimiter);
      var w' := RenameEffect(w, 0, path, name, Accepted, Accepted, Accepted).world;
      assert w'.rows == RenameSubtree(w.rows, 0, path, target, delimiter);
      assert !Backed(w'.server, w'.rows[0]);
    }
  }
}
