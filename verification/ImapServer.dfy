/**
 * The IMAP server as the service sees it through src/messages/imap.client.ts: per mailbox a tree of
 * folders, each holding messages under uids it never reuses.
 */
module ImapServer {
  import opened Prelude
  import opened Projection
  import opened Folders

  datatype Box = Box(mailbox: Id, path: string)

  /** Uids are handed out from uidNext upwards (RFC 3501, section 2.3.1.1). */
  datatype Folder = Folder(specialUse: Option<string>, delimiter: char, uidNext: nat, mail: map<nat, ImapMessage>)
  {
    ghost predicate Valid() {
      forall u | u in mail :: u < uidNext && mail[u].uid == u
    }
  }

  type Server = map<Box, Folder>

  ghost predicate ValidServer(s: Server) {
    forall b | b in s :: s[b].Valid()
  }

  /** A call that throws, one the server answers NO to and the client ignores, one carried out. */
  datatype Reply = Unreachable | Refused | Accepted

  predicate Holding(s: Server, b: Box, u: nat, messageId: string) {
    b in s && u in s[b].mail && s[b].mail[u].messageId == messageId
  }

  predicate IsLast(s: Server, b: Box, u: nat, messageId: string) {
    Holding(s, b, u, messageId) && forall v | v in s[b].mail && s[b].mail[v].messageId == messageId :: v <= u
  }

  function Put(s: Server, b: Box, m: ImapMessage): Server {
    if b !in s then s
    else
      var f := s[b];
      s[b := f.(mail := f.mail[f.uidNext := m.(uid := f.uidNext)], uidNext := f.uidNext + 1)]
  }

  function Take(s: Server, b: Box, u: nat): Server {
    if b !in s then s else s[b := s[b].(mail := s[b].mail - {u})]
  }

  /** MOVE: the message leaves its folder and gets a new uid in the target. */
  function MoveMail(s: Server, b: Box, u: nat, target: Box): Server {
    if b in s && target in s && u in s[b].mail then Put(Take(s, b, u), target, s[b].mail[u]) else s
  }

  function SetSeen(s: Server, b: Box, u: nat, seen: bool): Server {
    if b in s && u in s[b].mail then s[b := s[b].(mail := s[b].mail[u := s[b].mail[u].(seen := seen)])] else s
  }

  // ----- Renaming a folder with everything below it (RFC 3501, section 6.3.5) -----

  function RenamedBox(b: Box, mailbox: Id, path: string, target: string, delimiter: char): Box {
    if b.mailbox == mailbox && Under(b.path, path, delimiter) then Box(mailbox, target + b.path[|path|..]) else b
  }

  predicate MovesBox(b: Box, mailbox: Id, path: string, delimiter: char) {
    b.mailbox == mailbox && Under(b.path, path, delimiter)
  }

  /** No folder that moves lands on one that stays. A server that lets two folders become one is out of the question;
      beyond that it may refuse what it likes. */
  predicate NoClash(s: Server, mailbox: Id, path: string, target: string, delimiter: char) {
    forall b | b in s && MovesBox(b, mailbox, path, delimiter) ::
      var b' := RenamedBox(b, mailbox, path, target, delimiter);
      b' in s ==> MovesBox(b', mailbox, path, delimiter)
  }

  /** Where a folder of the renamed tree was before. */
  function Origin(s: Server, b': Box, mailbox: Id, path: string, target: string, delimiter: char): Box {
    if b'.mailbox == mailbox && Under(b'.path, target, delimiter) && Box(mailbox, path + b'.path[|target|..]) in s
    then Box(mailbox, path + b'.path[|target|..])
    else b'
  }

  function RenameTree(s: Server, mailbox: Id, path: string, target: string, delimiter: char): Server {
    var boxes := set b | b in s :: RenamedBox(b, mailbox, path, target, delimiter);
    map b' | b' in boxes && Origin(s, b', mailbox, path, target, delimiter) in s
      :: s[Origin(s, b', mailbox, path, target, delimiter)]
  }

  lemma OriginOfRenamed(s: Server, b: Box, mailbox: Id, path: string, target: string, delimiter: char)
    requires NoClash(s, mailbox, path, target, delimiter) && b in s
    ensures Origin(s, RenamedBox(b, mailbox, path, target, delimiter), mailbox, path, target, delimiter) == b
  {
    var b' := RenamedBox(b, mailbox, path, target, delimiter);
    if MovesBox(b, mailbox, path, delimiter) {
      var suffix := b.path[|path|..];
      assert b.path == path + suffix;
      assert (target + suffix)[|target|..] == suffix;
      assert Under(target + suffix, target, delimiter);
    } else if b.mailbox == mailbox && Under(b.path, target, delimiter) {
      var suffix := b.path[|target|..];
      var c := Box(mailbox, path + suffix);
      assert b.path == target + suffix;
      assert (path + suffix)[|path|..] == suffix;
      assert MovesBox(c, mailbox, path, delimiter) && RenamedBox(c, mailbox, path, target, delimiter) == b;
    }
  }

  lemma RenamedBoxIsThere(s: Server, b: Box, mailbox: Id, path: string, target: string, delimiter: char)
    requires NoClash(s, mailbox, path, target, delimiter) && b in s
    ensures var s', b' := RenameTree(s, mailbox, path, target, delimiter), RenamedBox(b, mailbox, path, target, delimiter);
            b' in s' && s'[b'] == s[b]
  {
    OriginOfRenamed(s, b, mailbox, path, target, delimiter);
  }

  lemma OnlyRenamedBoxes(s: Server, b': Box, mailbox: Id, path: string, target: string, delimiter: char)
    requires NoClash(s, mailbox, path, target, delimiter)
    requires b' in RenameTree(s, mailbox, path, target, delimiter)
    ensures exists b :: b in s && b' == RenamedBox(b, mailbox, path, target, delimiter)
                        && RenameTree(s, mailbox, path, target, delimiter)[b'] == s[b]
  {
    var b :| b in s && b' == RenamedBox(b, mailbox, path, target, delimiter);
    OriginOfRenamed(s, b, mailbox, path, target, delimiter);
  }

  /** Each folder is found again under its new path, with its messages, and there are no others. */
  lemma RenameTreeMoves(s: Server, mailbox: Id, path: string, target: string, delimiter: char)
    requires NoClash(s, mailbox, path, target, delimiter)
    ensures var s' := RenameTree(s, mailbox, path, target, delimiter);
            && (forall b | b in s :: var b' := RenamedBox(b, mailbox, path, target, delimiter); b' in s' && s'[b'] == s[b])
            && (forall b' | b' in s' :: exists b :: b in s && b' == RenamedBox(b, mailbox, path, target, delimiter) && s'[b'] == s[b])
  {
    forall b | b in s
      ensures var s', b' := RenameTree(s, mailbox, path, target, delimiter), RenamedBox(b, mailbox, path, target, delimiter);
              b' in s' && s'[b'] == s[b]
    {
      RenamedBoxIsThere(s, b, mailbox, path, target, delimiter);
    }
    forall b' | b' in RenameTree(s, mailbox, path, target, delimiter)
      ensures exists b :: b in s && b' == RenamedBox(b, mailbox, path, target, delimiter)
                          && RenameTree(s, mailbox, path, target, delimiter)[b'] == s[b]
    {
      OnlyRenamedBoxes(s, b', mailbox, path, target, delimiter);
    }
  }

  /** No two folders become one. */
  lemma RenamedBoxesDiffer(s: Server, a: Box, b: Box, mailbox: Id, path: string, target: string, delimiter: char)
    requires NoClash(s, mailbox, path, target, delimiter) && a in s && b in s
    requires RenamedBox(a, mailbox, path, target, delimiter) == RenamedBox(b, mailbox, path, target, delimiter)
    ensures a == b
  {
    OriginOfRenamed(s, a, mailbox, path, target, delimiter);
    OriginOfRenamed(s, b, mailbox, path, target, delimiter);
  }

  // ----- What each change leaves in place -----

  lemma PutKeeps(s: Server, b: Box, m: ImapMessage)
    requires ValidServer(s)
    ensures var s' := Put(s, b, m);
            && ValidServer(s') && s'.Keys == s.Keys
            && (forall c, u, id | Holding(s, c, u, id) :: Holding(s', c, u, id))
            && (b in s ==> Holding(s', b, s[b].uidNext, m.messageId))
  {
  }

  lemma TakeKeeps(s: Server, b: Box, u: nat)
    requires ValidServer(s)
    ensures var s' := Take(s, b, u);
            && ValidServer(s') && s'.Keys == s.Keys
            && (forall c, v, id :: Holding(s', c, v, id) <==> Holding(s, c, v, id) && !(c == b && v == u))
  {
  }

  lemma MoveMailKeeps(s: Server, b: Box, u: nat, target: Box)
    requires ValidServer(s)
    ensures var s' := MoveMail(s, b, u, target);
            && ValidServer(s') && s'.Keys == s.Keys
            && (forall c, v, id | Holding(s, c, v, id) && !(c == b && v == u) :: Holding(s', c, v, id))
  {
    if b in s && target in s && u in s[b].mail {
      TakeKeeps(s, b, u);
      PutKeeps(Take(s, b, u), target, s[b].mail[u]);
    }
  }

  lemma SetSeenKeeps(s: Server, b: Box, u: nat, seen: bool)
    requires ValidServer(s)
    ensures var s' := SetSeen(s, b, u, seen);
            && ValidServer(s') && s'.Keys == s.Keys
            && (forall c, v, id :: Holding(s', c, v, id) <==> Holding(s, c, v, id))
  {
  }

  /** A move neither loses nor copies a message: the folders together hold the same mail under new uids. */
  lemma MoveMailConserves(s: Server, b: Box, u: nat, target: Box)
    requires ValidServer(s) && b in s && target in s && u in s[b].mail
    ensures var s' := MoveMail(s, b, u, target);
            && !(u in s'[b].mail)
            && s[target].uidNext !in s[target].mail
            && s'[target].mail == (if b == target then s[b].mail - {u} else s[target].mail)[s[target].uidNext := s[b].mail[u].(uid := s[target].uidNext)]
            && forall c | c in s && c != b && c != target :: s'[c] == s[c]
  {
  }
}
