/**
 * What a caller of src/messages/message.service.ts and src/folders/folder.service.ts sees of each operation: whom it
 * refuses, what becomes of the row, and what of the message on the server.
 */
module MailOutcomes {
  import opened Prelude
  import opened Wildcard
  import opened Projection
  import opened Folders
  import opened ImapServer
  import opened Mailroom

  /** The copy an operation on the row is about: the one stored, else the last one of the message in its folder. */
  ghost predicate IsCopyOf(s: Server, row: Row, u: nat) {
    && Holding(s, BoxOf(row), u, row.messageId)
    && if row.imapUid.Some? then row.imapUid == Some(u) else IsLast(s, BoxOf(row), u, row.messageId)
  }

  /** Folders, and every message but this one, are as they were. */
  ghost predicate SameMailBut(s: Server, s': Server, b: Box, u: nat) {
    && s'.Keys == s.Keys
    && forall c, v | c in s && !(c == b && v == u) :: SameMail(s, s', c, v)
  }

  predicate SameMail(s: Server, s': Server, c: Box, v: nat)
    requires c in s && c in s'
  {
    (v in s'[c].mail <==> v in s[c].mail) && (v in s[c].mail ==> s'[c].mail[v] == s[c].mail[v])
  }

  predicate Owns(w: World, mailbox: Id, id: Id) {
    id in w.rows && w.rows[id].mailbox == mailbox
  }

  lemma CopyIsLocated(w: World, id: Id) returns (u: nat)
    requires NoPhantoms(w) && id in w.rows
    ensures IsCopyOf(w.server, w.rows[id], u)
    ensures Resolve(w.server, w.rows[id], Accepted) == At(u)
  {
    BackedIsLocated(w, id);
    u := Resolve(w.server, w.rows[id], Accepted).uid;
  }

  // ----- Whom the operations refuse -----

  /** No operation finds a row of another mailbox, or touches anything when asked for one. */
  lemma ForeignRowsAreNotFound(w: World, mailbox: Id, id: Id, read: bool, folder: string, a: Reply, b: Reply, c: Reply,
                               trash: Option<Option<string>>)
    requires !Owns(w, mailbox, id)
    ensures MarkReadEffect(w, mailbox, id, read, a) == Effect(w, NotFound)
    ensures ReadEffect(w, mailbox, id, a, b, c) == Effect(w, NotFound)
    ensures MoveEffect(w, mailbox, id, folder, a, b) == Effect(w, NotFound)
    ensures RemoveEffect(w, mailbox, id, a, trash, b) == Effect(w, NotFound)
    ensures DiscardEffect(w, mailbox, id, a, b) == Effect(w, NotFound)
  {
  }

  /** A row that cannot be looked for is left alone by everything that needs its message. */
  lemma UnreachableSearchChangesNothing(w: World, mailbox: Id, id: Id, folder: string, fetch: Reply, reply: Reply, trash: Option<Option<string>>)
    requires Owns(w, mailbox, id) && w.rows[id].imapUid.None?
    ensures ReadEffect(w, mailbox, id, Unreachable, fetch, reply) == Effect(w, Unavailable)
    ensures MoveEffect(w, mailbox, id, folder, Unreachable, reply) == Effect(w, Unavailable)
    ensures RemoveEffect(w, mailbox, id, Unreachable, trash, reply) == Effect(w, Unavailable)
    ensures DiscardEffect(w, mailbox, id, Unreachable, reply) == Effect(w, Unavailable)
  {
  }

  /** The row and the server are as they were, but that the copy found is now stored. */
  predicate OnlyStored(w: World, w': World, id: Id, u: nat)
    requires id in w.rows
  {
    w' == w.(rows := w.rows[id := w.rows[id].(imapUid := Some(u))])
  }

  /** When the call that was to move, destroy or fetch the message cannot be made, row and message stay. */
  lemma UnreachableCallKeepsMessage(w: World, mailbox: Id, id: Id, folder: string, flag: Reply, trash: Option<string>) returns (u: nat)
    requires NoPhantoms(w) && Owns(w, mailbox, id)
    ensures IsCopyOf(w.server, w.rows[id], u)
    ensures var e := ReadEffect(w, mailbox, id, Accepted, Unreachable, flag); e.outcome.Unavailable? && OnlyStored(w, e.world, id, u)
    ensures var e := MoveEffect(w, mailbox, id, folder, Accepted, Unreachable); e.outcome.Unavailable? && OnlyStored(w, e.world, id, u)
    ensures var e := RemoveEffect(w, mailbox, id, Accepted, Some(trash), Unreachable); e.outcome.Unavailable? && OnlyStored(w, e.world, id, u)
    ensures var e := RemoveEffect(w, mailbox, id, Accepted, None, Accepted); e.outcome.Unavailable? && OnlyStored(w, e.world, id, u)
    ensures var e := DiscardEffect(w, mailbox, id, Accepted, Unreachable); e.outcome.Unavailable? && OnlyStored(w, e.world, id, u)
  {
    u := CopyIsLocated(w, id);
  }

  /** A call the server answers NO to is taken for done: the row goes and the message stays. */
  lemma RefusedCallLosesRow(w: World, mailbox: Id, id: Id, folder: string, trash: Option<string>)
    requires NoPhantoms(w) && Owns(w, mailbox, id)
    ensures MoveEffect(w, mailbox, id, folder, Accepted, Refused) == Effect(w.(rows := w.rows - {id}), Done)
    ensures RemoveEffect(w, mailbox, id, Accepted, Some(trash), Refused) == Effect(w.(rows := w.rows - {id}), Done)
    ensures DiscardEffect(w, mailbox, id, Accepted, Refused) == Effect(w.(rows := w.rows - {id}), Done)
  {
    var u := CopyIsLocated(w, id);
    assert w.rows[id := w.rows[id].(imapUid := Some(u))] - {id} == w.rows - {id};
  }

  /** The search gets through and finds nothing, or the server answers NO to it. */
  predicate FindsNothing(w: World, id: Id, search: Reply)
    requires id in w.rows
  {
    && w.rows[id].imapUid.None? && BoxOf(w.rows[id]) in w.server
    && (search.Refused? || (search.Accepted? && forall u | u in w.server[BoxOf(w.rows[id])].mail ::
                              w.server[BoxOf(w.rows[id])].mail[u].messageId != w.rows[id].messageId))
  }

  /** A row whose message a search does not find is dropped by move and remove, kept by discard, and marked by read. */
  lemma MissingMessage(w: World, mailbox: Id, id: Id, folder: string, search: Reply, fetch: Reply, reply: Reply, trash: Option<string>)
    requires Owns(w, mailbox, id) && FindsNothing(w, id, search)
    ensures MoveEffect(w, mailbox, id, folder, search, reply) == Effect(w.(rows := w.rows - {id}), Done)
    ensures RemoveEffect(w, mailbox, id, search, Some(trash), reply) == Effect(w.(rows := w.rows - {id}), Done)
    ensures RemoveEffect(w, mailbox, id, search, None, reply) == Effect(w, Unavailable)
    ensures DiscardEffect(w, mailbox, id, search, reply) == Effect(w, NotFound)
    ensures ReadEffect(w, mailbox, id, search, fetch, reply) == Effect(w.(rows := w.rows[id := w.rows[id].(read := true)]), Done)
  {
    assert w.rows[id].read ==> w.rows[id := w.rows[id].(read := true)] == w.rows;
  }

  /** A row whose folder the server does not have can be marked, when its uid is not stored, and nothing else; the row stays. */
  lemma MissingFolder(w: World, mailbox: Id, id: Id, read: bool, folder: string, search: Reply, fetch: Reply, reply: Reply, trash: Option<Option<string>>)
    requires Owns(w, mailbox, id) && BoxOf(w.rows[id]) !in w.server
    ensures ReadEffect(w, mailbox, id, search, fetch, reply) == Effect(w, Unavailable)
    ensures MoveEffect(w, mailbox, id, folder, search, reply) == Effect(w, Unavailable)
    ensures RemoveEffect(w, mailbox, id, search, trash, reply) == Effect(w, Unavailable)
    ensures DiscardEffect(w, mailbox, id, search, reply) == Effect(w, Unavailable)
    ensures MarkReadEffect(w, mailbox, id, read, reply)
         == if w.rows[id].imapUid.Some? then Effect(w, Unavailable) else Effect(w.(rows := w.rows[id := w.rows[id].(read := read)]), Done)
  {
    var row := w.rows[id];
    if row.imapUid.Some? {
      assert row.(imapUid := Some(row.imapUid.value)) == row && w.rows[id := row] == w.rows;
    }
  }

  /** A move to a folder the server does not have is taken for done as well: the row goes and the message stays. */
  lemma MoveNowhereLosesRow(w: World, mailbox: Id, id: Id, folder: string)
    requires NoPhantoms(w) && Owns(w, mailbox, id) && Box(mailbox, folder) !in w.server
    ensures MoveEffect(w, mailbox, id, folder, Accepted, Accepted) == Effect(w.(rows := w.rows - {id}), Done)
  {
    var u := CopyIsLocated(w, id);
    assert w.rows[id := w.rows[id].(imapUid := Some(u))] - {id} == w.rows - {id};
  }

  // ----- What becomes of the message -----

  /** The row is gone, and of all mail only its copy. */
  ghost predicate Destroys(w: World, id: Id, e: Effect)
    requires id in w.rows
  {
    && e.outcome.Done?
    && e.world.rows == w.rows - {id} && e.world.nextId == w.nextId
    && exists u :: IsCopyOf(w.server, w.rows[id], u) && Gone(w.server, e.world.server, BoxOf(w.rows[id]), u)
  }

  ghost predicate Gone(s: Server, s': Server, b: Box, u: nat) {
    && SameMailBut(s, s', b, u)
    && b in s' && u !in s'[b].mail
  }

  lemma TakenIsGone(s: Server, b: Box, u: nat)
    requires b in s && u in s[b].mail
    ensures Gone(s, Take(s, b, u), b, u)
  {
  }

  /** Without a trash folder, or from the trash itself, removing destroys the message; so does discarding a draft. */
  lemma RemoveDestroys(w: World, mailbox: Id, id: Id, trash: Option<string>)
    requires NoPhantoms(w) && Owns(w, mailbox, id)
    requires trash.None? || trash.value == w.rows[id].folder
    ensures Destroys(w, id, RemoveEffect(w, mailbox, id, Accepted, Some(trash), Accepted))
  {
    var u := CopyIsLocated(w, id);
    assert w.rows[id := w.rows[id].(imapUid := Some(u))] - {id} == w.rows - {id};
    TakenIsGone(w.server, BoxOf(w.rows[id]), u);
  }

  lemma DiscardDestroys(w: World, mailbox: Id, id: Id)
    requires NoPhantoms(w) && Owns(w, mailbox, id)
    ensures Destroys(w, id, DiscardEffect(w, mailbox, id, Accepted, Accepted))
  {
    var u := CopyIsLocated(w, id);
    assert w.rows[id := w.rows[id].(imapUid := Some(u))] - {id} == w.rows - {id};
    TakenIsGone(w.server, BoxOf(w.rows[id]), u);
  }

  /** Of all mail only this copy changed, in its flag. */
  ghost predicate Marked(s: Server, s': Server, b: Box, u: nat, seen: bool) {
    && SameMailBut(s, s', b, u)
    && b in s && u in s[b].mail && b in s' && u in s'[b].mail
    && s'[b].mail[u] == s[b].mail[u].(seen := seen)
  }

  lemma SetSeenMarks(s: Server, b: Box, u: nat, seen: bool)
    requires b in s && u in s[b].mail
    ensures Marked(s, SetSeen(s, b, u, seen), b, u, seen)
  {
  }

  /** Reading stores the copy found and marks the row, and an unread message on the server too. */
  lemma ReadMarks(w: World, mailbox: Id, id: Id) returns (u: nat)
    requires NoPhantoms(w) && Owns(w, mailbox, id)
    ensures IsCopyOf(w.server, w.rows[id], u)
    ensures var e, row := ReadEffect(w, mailbox, id, Accepted, Accepted, Accepted), w.rows[id];
            && e.outcome.Done? && e.world.nextId == w.nextId
            && e.world.rows == w.rows[id := row.(imapUid := Some(u), read := true)]
            && (if row.read then e.world.server == w.server else Marked(w.server, e.world.server, BoxOf(row), u, true))
  {
    u := CopyIsLocated(w, id);
    SetSeenMarks(w.server, BoxOf(w.rows[id]), u, true);
  }

  /** What reading shows stands even when the flag cannot be set; the row is then not marked. */
  lemma ReadWithoutFlag(w: World, mailbox: Id, id: Id) returns (u: nat)
    requires NoPhantoms(w) && Owns(w, mailbox, id) && !w.rows[id].read
    ensures IsCopyOf(w.server, w.rows[id], u)
    ensures var e := ReadEffect(w, mailbox, id, Accepted, Accepted, Unreachable); e.outcome.Unavailable? && OnlyStored(w, e.world, id, u)
  {
    u := CopyIsLocated(w, id);
  }

  /** What the server takes in becomes the folder's newest message. */
  lemma PutIsNewest(s: Server, b: Box, m: ImapMessage)
    requires ValidServer(s) && b in s
    ensures var u := s[b].uidNext;
            && SameMailBut(s, Put(s, b, m), b, u)
            && u !in s[b].mail && u in Put(s, b, m)[b].mail && Put(s, b, m)[b].mail[u] == m.(uid := u)
            && forall v | v in s[b].mail :: v < u
  {
  }

  // ----- Folders -----

  /** Upper case of the dotless i and of i is the same letter. */
  function Dotted(c: char): char {
    if c == '\U{131}' then 'i' else c
  }

  /** INBOX in any spelling, or a folder with a special use. */
  predicate Protected(s: Server, b: Box) {
    b in s && (s[b].specialUse.Some? || Fold(MapChars(Dotted, b.path)) == "inbox")
  }

  lemma ProtectedIsSystem(s: Server, b: Box)
    requires b in s
    ensures Protected(s, b) <==> IsSystem(b.path, s[b])
  {
    var folded := Fold(MapChars(Dotted, b.path));
    assert |folded| == |b.path|;
    if |b.path| == 5 {
      assert folded == [folded[0], folded[1], folded[2], folded[3], folded[4]];
    }
  }

  /** Renaming and deleting refuse an unknown and a protected folder, and then, or when the folders cannot be listed,
      change nothing. */
  lemma FoldersRefused(w: World, mailbox: Id, path: string, name: string, used: nat, reply: Reply, closing: Reply)
    ensures RenameEffect(w, mailbox, path, name, Unreachable, reply, closing) == Effect(w, Unavailable)
    ensures DeleteEffect(w, mailbox, path, used, Unreachable, reply) == Effect(w, Unavailable)
    ensures Box(mailbox, path) !in w.server ==>
              && RenameEffect(w, mailbox, path, name, Accepted, reply, closing) == Effect(w, NotFound)
              && DeleteEffect(w, mailbox, path, used, Accepted, reply) == Effect(w, NotFound)
    ensures Protected(w.server, Box(mailbox, path)) ==>
              && RenameEffect(w, mailbox, path, name, Accepted, reply, closing) == Effect(w, Forbidden)
              && DeleteEffect(w, mailbox, path, used, Accepted, reply) == Effect(w, Forbidden)
  {
    if Box(mailbox, path) in w.server {
      ProtectedIsSystem(w.server, Box(mailbox, path));
    }
  }

  /** A path put together from where it lies and its own name. */
  function Lying(parent: Option<string>, name: string, delimiter: char): string {
    if parent.None? then name else parent.value + ([delimiter] + name)
  }

  lemma LyingIsPathIn(parent: Option<string>, last: string, name: string, delimiter: char)
    requires delimiter !in last
    ensures RenameTarget(Lying(parent, last, delimiter), name, delimiter) == Lying(parent, name, delimiter)
  {
    PathShowsItsParts(parent, last, delimiter);
    ConcatAssociates(if parent.None? then "" else parent.value, [delimiter], last);
    ConcatAssociates(if parent.None? then "" else parent.value, [delimiter], name);
  }

  /** Where something at the path or below it goes with a rename to the target; anything else stays. */
  ghost predicate Goes(a: string, b: string, path: string, target: string, delimiter: char) {
    if Under(a, path, delimiter) then exists rest :: a == path + rest && b == target + rest else b == a
  }

  ghost predicate RowGoes(row: Row, row': Row, mailbox: Id, path: string, target: string, delimiter: char) {
    && row' == row.(folder := row'.folder)
    && if row.mailbox == mailbox then Goes(row.folder, row'.folder, path, target, delimiter) else row'.folder == row.folder
  }

  ghost predicate BoxGoes(b: Box, b': Box, mailbox: Id, path: string, target: string, delimiter: char) {
    && b'.mailbox == b.mailbox
    && if b.mailbox == mailbox then Goes(b.path, b'.path, path, target, delimiter) else b'.path == b.path
  }

  ghost predicate RowsGo(t: Table, t': Table, mailbox: Id, path: string, target: string, delimiter: char) {
    t'.Keys == t.Keys && forall id | id in t :: RowGoes(t[id], t'[id], mailbox, path, target, delimiter)
  }

  ghost predicate BoxIsFound(s: Server, s': Server, b: Box, mailbox: Id, path: string, target: string, delimiter: char)
    requires b in s
  {
    exists b' :: b' in s' && BoxGoes(b, b', mailbox, path, target, delimiter) && s'[b'] == s[b]
  }

  ghost predicate BoxWasThere(s: Server, b': Box, mailbox: Id, path: string, target: string, delimiter: char) {
    exists b :: b in s && BoxGoes(b, b', mailbox, path, target, delimiter)
  }

  /** Each folder is found, with its mail, where it went; and there are no others. */
  ghost predicate BoxesGo(s: Server, s': Server, mailbox: Id, path: string, target: string, delimiter: char) {
    && (forall b | b in s :: BoxIsFound(s, s', b, mailbox, path, target, delimiter))
    && forall b' | b' in s' :: BoxWasThere(s, b', mailbox, path, target, delimiter)
  }

  /** Rows and folders of the tree are found under the target, with their mail, and everything else where it was. */
  ghost predicate Renamed(w: World, w': World, mailbox: Id, path: string, target: string, delimiter: char) {
    && w'.nextId == w.nextId
    && RowsGo(w.rows, w'.rows, mailbox, path, target, delimiter)
    && BoxesGo(w.server, w'.server, mailbox, path, target, delimiter)
  }

  lemma UnderGoes(a: string, path: string, target: string, delimiter: char)
    requires Under(a, path, delimiter)
    ensures |a| >= |path| && Goes(a, target + a[|path|..], path, target, delimiter)
  {
    assert a == path + a[|path|..];
  }

  lemma RenamedRowGoes(row: Row, mailbox: Id, path: string, target: string, delimiter: char)
    requires LIKE.Plain(path + [delimiter])
    ensures RowGoes(row, RenamedRow(row, mailbox, path, target, delimiter), mailbox, path, target, delimiter)
  {
    SubtreeExactness(path, delimiter);
    if Under(row.folder, path, delimiter) {
      UnderGoes(row.folder, path, target, delimiter);
    }
  }

  lemma RenamedRowsGo(t: Table, mailbox: Id, path: string, target: string, delimiter: char)
    requires LIKE.Plain(path + [delimiter])
    ensures RowsGo(t, RenameSubtree(t, mailbox, path, target, delimiter), mailbox, path, target, delimiter)
  {
    forall id | id in t
      ensures RowGoes(t[id], RenamedRow(t[id], mailbox, path, target, delimiter), mailbox, path, target, delimiter)
    {
      RenamedRowGoes(t[id], mailbox, path, target, delimiter);
    }
  }

  lemma RenamedBoxGoes(b: Box, mailbox: Id, path: string, target: string, delimiter: char)
    ensures BoxGoes(b, RenamedBox(b, mailbox, path, target, delimiter), mailbox, path, target, delimiter)
  {
    if Under(b.path, path, delimiter) {
      UnderGoes(b.path, path, target, delimiter);
    }
  }

  lemma BoxFoundAgain(s: Server, b: Box, mailbox: Id, path: string, target: string, delimiter: char)
    requires NoClash(s, mailbox, path, target, delimiter) && b in s
    ensures BoxIsFound(s, RenameTree(s, mailbox, path, target, delimiter), b, mailbox, path, target, delimiter)
  {
    RenamedBoxGoes(b, mailbox, path, target, delimiter);
    RenamedBoxIsThere(s, b, mailbox, path, target, delimiter);
  }

  lemma BoxNotNew(s: Server, b': Box, mailbox: Id, path: string, target: string, delimiter: char)
    requires NoClash(s, mailbox, path, target, delimiter) && b' in RenameTree(s, mailbox, path, target, delimiter)
    ensures BoxWasThere(s, b', mailbox, path, target, delimiter)
  {
    OnlyRenamedBoxes(s, b', mailbox, path, target, delimiter);
    var b :| b in s && b' == RenamedBox(b, mailbox, path, target, delimiter);
    RenamedBoxGoes(b, mailbox, path, target, delimiter);
  }

  lemma RenamedBoxesGo(s: Server, mailbox: Id, path: string, target: string, delimiter: char)
    requires NoClash(s, mailbox, path, target, delimiter)
    ensures BoxesGo(s, RenameTree(s, mailbox, path, target, delimiter), mailbox, path, target, delimiter)
  {
    var s' := RenameTree(s, mailbox, path, target, delimiter);
    forall b | b in s
      ensures BoxIsFound(s, s', b, mailbox, path, target, delimiter)
    {
      BoxFoundAgain(s, b, mailbox, path, target, delimiter);
    }
    forall b' | b' in s'
      ensures BoxWasThere(s, b', mailbox, path, target, delimiter)
    {
      BoxNotNew(s, b', mailbox, path, target, delimiter);
    }
  }

  lemma LyingApart(parent: Option<string>, last: string, name: string, delimiter: char)
    ensures Lying(parent, last, delimiter) == Lying(parent, name, delimiter) <==> last == name
  {
    if parent.Some? && Lying(parent, last, delimiter) == Lying(parent, name, delimiter) {
      SameSuffix(parent.value, [delimiter] + last, [delimiter] + name);
      SameSuffix([delimiter], last, name);
    }
  }

  /** An unprotected folder at its parent and name. */
  ghost predicate Free(w: World, mailbox: Id, parent: Option<string>, last: string, d: char) {
    var b := Box(mailbox, Lying(parent, last, d));
    d !in last && b in w.server && w.server[b].delimiter == d && !Protected(w.server, b)
  }

  /** The name an unprotected folder has already changes nothing; nor does a rename the server does not carry out. */
  lemma FolderStays(w: World, mailbox: Id, parent: Option<string>, last: string, name: string, d: char, reply: Reply, closing: Reply)
    requires Free(w, mailbox, parent, last, d)
    requires name == last || !reply.Accepted? || !NoClash(w.server, mailbox, Lying(parent, last, d), Lying(parent, name, d), d)
    ensures RenameEffect(w, mailbox, Lying(parent, last, d), name, Accepted, reply, closing)
         == Effect(w, if name == last && !closing.Unreachable? then Done else Unavailable)
  {
    ProtectedIsSystem(w.server, Box(mailbox, Lying(parent, last, d)));
    LyingIsPathIn(parent, last, name, d);
    LyingApart(parent, last, name, d);
  }

  lemma RenameGoesThrough(w: World, mailbox: Id, path: string, name: string, target: string, d: char, closing: Reply)
    requires NoPhantoms(w) && Box(mailbox, path) in w.server && w.server[Box(mailbox, path)].delimiter == d
    requires !IsSystem(path, w.server[Box(mailbox, path)]) && RenameTarget(path, name, d) == target != path
    requires LIKE.Plain(path + [d]) && NoClash(w.server, mailbox, path, target, d)
    ensures RenameEffect(w, mailbox, path, name, Accepted, Accepted, closing)
         == Effect(w.(rows := RenameSubtree(w.rows, mailbox, path, target, d), server := RenameTree(w.server, mailbox, path, target, d)),
                   if closing.Unreachable? then Unavailable else Done)
  {
    RenameKeeps(w, mailbox, path, name, Accepted, Accepted, closing);
  }

  /** A rename the server carries out, of an unprotected folder with a plain path: on both sides the whole tree is found
      under the parent it had and the new name. */
  lemma FolderIsRenamed(w: World, mailbox: Id, parent: Option<string>, last: string, name: string, d: char, closing: Reply)
    requires NoPhantoms(w) && Free(w, mailbox, parent, last, d) && name != last && LIKE.Plain(Lying(parent, last, d) + [d])
    requires NoClash(w.server, mailbox, Lying(parent, last, d), Lying(parent, name, d), d)
    ensures var path, target := Lying(parent, last, d), Lying(parent, name, d);
            var e := RenameEffect(w, mailbox, path, name, Accepted, Accepted, closing);
            Renamed(w, e.world, mailbox, path, target, d) && e.outcome == if closing.Unreachable? then Unavailable else Done
  {
    var path, target := Lying(parent, last, d), Lying(parent, name, d);
    ProtectedIsSystem(w.server, Box(mailbox, path));
    LyingIsPathIn(parent, last, name, d);
    LyingApart(parent, last, name, d);
    RenameGoesThrough(w, mailbox, path, name, target, d, closing);
    RenamedRowsGo(w.rows, mailbox, path, target, d);
    RenamedBoxesGo(w.server, mailbox, path, target, d);
  }

  /** Whatever path is renamed, no two rows come to share a place: a rename of the rows that would bring it about is refused
      and leaves the rows as they were, while the server has been renamed already. */
  lemma IndexHoldsThroughRename(w: World, mailbox: Id, path: string, name: string, listing: Reply, reply: Reply, closing: Reply)
    requires UniqueKeys(w.rows)
    ensures var e := RenameEffect(w, mailbox, path, name, listing, reply, closing);
            && UniqueKeys(e.world.rows)
            && (e.outcome.Rejected? ==> e.world == w.(server := e.world.server) && Box(mailbox, path) in w.server)
  {
  }

  /** Deleting an unprotected folder of a plain path that no rule moves mail into: the folder itself goes from the server,
      and of the rows exactly those at the path or below it; in any other case nothing changes. */
  lemma FolderIsDeleted(w: World, mailbox: Id, path: string, used: nat, reply: Reply)
    requires var b := Box(mailbox, path); b in w.server && !Protected(w.server, b) && LIKE.Plain(path + [w.server[b].delimiter])
    ensures var b := Box(mailbox, path);
            var e := DeleteEffect(w, mailbox, path, used, Accepted, reply);
            if used > 0 then e == Effect(w, Conflict)
            else if !reply.Accepted? then e == Effect(w, Unavailable)
            else
              && e.outcome.Done? && e.world.nextId == w.nextId
              && (forall c :: c in e.world.server <==> c in w.server && c != b)
              && (forall c | c in e.world.server :: e.world.server[c] == w.server[c])
              && (forall id :: id in e.world.rows <==>
                    id in w.rows && !(w.rows[id].mailbox == mailbox && Under(w.rows[id].folder, path, w.server[b].delimiter)))
              && (forall id | id in e.world.rows :: e.world.rows[id] == w.rows[id])
  {
    ProtectedIsSystem(w.server, Box(mailbox, path));
    SubtreeExactness(path, w.server[Box(mailbox, path)].delimiter);
  }
}
