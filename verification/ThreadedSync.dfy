/**
 * The table refines the filing: each sync of src/messages/message.service.ts is one Refile step,
 * so the convergence proved of filings holds of the rows.
 */
module ThreadedSync {
  import opened Prelude
  import opened KeepBest
  import opened Projection
  import opened Threads

  ghost predicate RowAt(t: Table, id: Id, mailbox: Id, k: Place) {
    id in t && t[id].In(mailbox, k.folder) && t[id].messageId == k.messageId && t[id].threadId.Some?
  }

  /** The filing holds the thread of every threaded row of the mailbox, and nothing else. */
  ghost predicate Files(t: Table, mailbox: Id, filing: Filing) {
    && (forall k | k in filing :: exists id :: RowAt(t, id, mailbox, k))
    && (forall id, k | RowAt(t, id, mailbox, k) :: k in filing && t[id].threadId == Some(filing[k]))
  }

  ghost function FilingOf(t: Table, mailbox: Id): (filing: Filing)
    requires UniqueKeys(t)
    ensures Files(t, mailbox, filing)
  {
    var ids := set id | id in t && t[id].mailbox == mailbox && t[id].threadId.Some?;
    var places := set id | id in ids :: Place(t[id].folder, t[id].messageId);
    assert forall k | k in places :: exists id :: RowAt(t, id, mailbox, k) by {
      forall k | k in places
        ensures exists id :: RowAt(t, id, mailbox, k)
      {
        var id :| id in ids && k == Place(t[id].folder, t[id].messageId);
        assert RowAt(t, id, mailbox, k);
      }
    }
    var filing := map k | k in places :: (var id :| RowAt(t, id, mailbox, k); t[id].threadId.value);
    assert forall id, k | RowAt(t, id, mailbox, k) :: k in filing && t[id].threadId == Some(filing[k]) by {
      forall id, k | RowAt(t, id, mailbox, k)
        ensures k in filing && t[id].threadId == Some(filing[k])
      {
        assert id in ids && k == Place(t[id].folder, t[id].messageId);
        assert KeyOf(t[id]) == Key(mailbox, k.folder, k.messageId);
      }
    }
    filing
  }

  /** The server lists these messages, copies agreeing on what they reply to. */
  ghost predicate Describes(s: Server, listings: map<string, seq<ImapMessage>>) {
    && s.Consistent()
    && s.held.Keys == listings.Keys
    && (forall f, x | f in listings :: x in s.held[f] <==> HasKey(Usable(listings[f]), x, MESSAGE_ID))
    && (forall f, m | f in listings && m in Usable(listings[f]) :: m.messageId in s.links && s.links[m.messageId] == m.inReplyTo)
  }

  ghost predicate SyncWith(mailbox: Id, t: Table, folder: string, listing: seq<ImapMessage>, t': Table, next: Id, parents: map<string, string>) {
    && Below(t, next)
    && ThreadsFound(t, mailbox, ParentIds(Usable(listing)), parents)
    && t' == Synced(t, next, mailbox, folder, listing, parents)
  }

  /** A sync that succeeded, whatever identifiers and parent rows it happened to pick. */
  ghost predicate Sync(mailbox: Id, t: Table, folder: string, listing: seq<ImapMessage>, t': Table) {
    exists next: Id, parents: map<string, string> :: SyncWith(mailbox, t, folder, listing, t', next, parents)
  }

  // ----- One sync is one Refile -----

  lemma FoundIsFiled(t: Table, mailbox: Id, filing: Filing, id: Id, thread: string)
    requires Files(t, mailbox, filing) && id in t && HasThread(t[id], mailbox, t[id].messageId, thread)
    ensures var k := Place(t[id].folder, t[id].messageId); k in filing && filing[k] == thread
  {
    assert RowAt(t, id, mailbox, Place(t[id].folder, t[id].messageId));
  }

  lemma FiledIsFound(t: Table, mailbox: Id, filing: Filing, asked: set<string>, parents: map<string, string>, k: Place)
    requires Files(t, mailbox, filing) && ThreadsFound(t, mailbox, asked, parents)
    requires k in filing && k.messageId in asked
    ensures k.messageId in parents
  {
    var id :| RowAt(t, id, mailbox, k);
  }

  lemma LookupMayFile(s: Server, t: Table, mailbox: Id, filing: Filing, asked: set<string>, parents: map<string, string>, m: ImapMessage)
    requires Files(t, mailbox, filing) && ThreadsFound(t, mailbox, asked, parents)
    requires m.inReplyTo.Some? ==> m.inReplyTo.value in asked
    requires m.messageId in s.links && s.links[m.messageId] == m.inReplyTo
    ensures s.MayFile(filing, m.messageId, ThreadFor(m.messageId, m.inReplyTo, parents))
  {
    if m.inReplyTo.Some? {
      var p := m.inReplyTo.value;
      if p in parents {
        var id :| id in t && HasThread(t[id], mailbox, p, parents[p]);
        FoundIsFiled(t, mailbox, filing, id, parents[p]);
        var k := Place(t[id].folder, p);
        assert k in filing && k.messageId == p && filing[k] == parents[p];
      } else {
        forall k | k in filing
          ensures k.messageId != p
        {
          if k.messageId == p {
            FiledIsFound(t, mailbox, filing, asked, parents, k);
          }
        }
      }
    }
  }

  /** The folder's rows are the usable messages, each showing its own. */
  ghost predicate FolderShows(t: Table, mailbox: Id, folder: string, usable: seq<ImapMessage>, parents: map<string, string>) {
    && (forall id | id in t && t[id].In(mailbox, folder) :: exists m :: m in usable && Shows(t[id], m, parents))
    && (forall m | m in usable :: Holds(t, Key(mailbox, folder, m.messageId)))
  }

  lemma FolderPlace(mailbox: Id, folder: string, t: Table, usable: seq<ImapMessage>, parents: map<string, string>, filing: Filing, x: string)
    requires Files(t, mailbox, filing) && FolderShows(t, mailbox, folder, usable, parents)
    ensures Place(folder, x) in filing <==> HasKey(usable, x, MESSAGE_ID)
  {
    var k := Place(folder, x);
    if i :| 0 <= i < |usable| && MESSAGE_ID(usable[i]) == x {
      assert Holds(t, Key(mailbox, folder, usable[i].messageId));
      var id :| id in t && KeyOf(t[id]) == Key(mailbox, folder, x);
      assert RowAt(t, id, mailbox, k);
    }
    if k in filing {
      var id :| RowAt(t, id, mailbox, k);
      var m :| m in usable && Shows(t[id], m, parents);
      var i :| 0 <= i < |usable| && usable[i] == m;
      assert MESSAGE_ID(usable[i]) == x;
    }
  }

  ghost predicate SameElsewhere(t: Table, t': Table, mailbox: Id, folder: string) {
    && (forall id | id in t && !t[id].In(mailbox, folder) :: id in t' && t'[id] == t[id])
    && (forall id | id in t' && !t'[id].In(mailbox, folder) :: id in t && t'[id] == t[id])
  }

  lemma OtherPlace(mailbox: Id, t: Table, folder: string, t': Table, filing: Filing, filing': Filing, k: Place)
    requires Files(t, mailbox, filing) && Files(t', mailbox, filing') && SameElsewhere(t, t', mailbox, folder)
    requires k.folder != folder
    ensures k in filing' <==> k in filing
    ensures k in filing' ==> filing'[k] == filing[k]
  {
    if k in filing' {
      var id :| RowAt(t', id, mailbox, k);
      assert RowAt(t, id, mailbox, k);
    }
    if k in filing {
      var id :| RowAt(t, id, mailbox, k);
      assert RowAt(t', id, mailbox, k);
    }
  }

  lemma RefileFrom(s: Server, mailbox: Id, t: Table, folder: string, t': Table, usable: seq<ImapMessage>,
                   parents: map<string, string>, filing: Filing, filing': Filing)
    requires s.Consistent() && folder in s.held
    requires forall x :: x in s.held[folder] <==> HasKey(usable, x, MESSAGE_ID)
    requires forall m | m in usable :: m.messageId in s.links && s.links[m.messageId] == m.inReplyTo
    requires Files(t, mailbox, filing) && Files(t', mailbox, filing')
    requires ThreadsFound(t, mailbox, ParentIds(usable), parents)
    requires FolderShows(t', mailbox, folder, usable, parents) && SameElsewhere(t, t', mailbox, folder)
    ensures s.Refile(filing, folder, filing')
  {
    forall k: Place
      ensures k in filing' <==> if k.folder == folder then k.messageId in s.held[folder] else k in filing
      ensures k in filing' && k.folder != folder ==> filing'[k] == filing[k]
    {
      if k.folder == folder {
        FolderPlace(mailbox, folder, t', usable, parents, filing', k.messageId);
      } else {
        OtherPlace(mailbox, t, folder, t', filing, filing', k);
      }
    }
    forall k | k in filing' && k.folder == folder
      ensures s.MayFile(filing, k.messageId, filing'[k])
    {
      var id :| RowAt(t', id, mailbox, k);
      var m :| m in usable && Shows(t'[id], m, parents);
      assert m.inReplyTo.Some? ==> m.inReplyTo.value in ParentIds(usable);
      LookupMayFile(s, t, mailbox, filing, ParentIds(usable), parents, m);
    }
  }

  lemma MirrorShows(mailbox: Id, t: Table, folder: string, t': Table, usable: seq<ImapMessage>, parents: map<string, string>)
    requires Mirrors(t, t', mailbox, folder, usable, parents)
    ensures UniqueKeys(t') && SameElsewhere(t, t', mailbox, folder) && FolderShows(t', mailbox, folder, usable, parents)
  {
  }

  lemma SyncShows(mailbox: Id, t: Table, folder: string, listing: seq<ImapMessage>, t': Table, next: Id, parents: map<string, string>)
    requires UniqueKeys(t) && SyncWith(mailbox, t, folder, listing, t', next, parents)
    ensures UniqueKeys(t') && SameElsewhere(t, t', mailbox, folder)
    ensures FolderShows(t', mailbox, folder, Usable(listing), parents)
  {
    SyncMirrors(t, next, mailbox, folder, listing, parents);
    MirrorShows(mailbox, t, folder, t', Usable(listing), parents);
  }

  /** What any sync does, without how it does it. */
  lemma SyncAsMirror(mailbox: Id, t: Table, folder: string, listing: seq<ImapMessage>, t': Table) returns (parents: map<string, string>)
    requires UniqueKeys(t) && Sync(mailbox, t, folder, listing, t')
    ensures UniqueKeys(t') && SameElsewhere(t, t', mailbox, folder)
    ensures Mirrors(t, t', mailbox, folder, Usable(listing), parents)
    ensures FolderShows(t', mailbox, folder, Usable(listing), parents)
  {
    var next: Id;
    next, parents :| SyncWith(mailbox, t, folder, listing, t', next, parents);
    SyncMirrors(t, next, mailbox, folder, listing, parents);
    MirrorShows(mailbox, t, folder, t', Usable(listing), parents);
  }

  /** A sync of one folder, as rows and as threads. */
  lemma SyncRefiles(s: Server, listings: map<string, seq<ImapMessage>>, mailbox: Id, t: Table, folder: string, t': Table)
    requires Describes(s, listings) && folder in listings && UniqueKeys(t)
    requires Sync(mailbox, t, folder, listings[folder], t')
    ensures UniqueKeys(t') && SameElsewhere(t, t', mailbox, folder)
    ensures forall id | id in t' && t'[id].In(mailbox, folder) :: t'[id].threadId.Some?
    ensures s.Refile(FilingOf(t, mailbox), folder, FilingOf(t', mailbox))
  {
    var next: Id, parents: map<string, string> :| SyncWith(mailbox, t, folder, listings[folder], t', next, parents);
    SyncShows(mailbox, t, folder, listings[folder], t', next, parents);
    RefileFrom(s, mailbox, t, folder, t', Usable(listings[folder]), parents, FilingOf(t, mailbox), FilingOf(t', mailbox));
  }

  // ----- A run of syncs -----

  /** Tables before and after each of a run of syncs of one mailbox, whose listings do not change. */
  datatype Run = Run(mailbox: Id, listings: map<string, seq<ImapMessage>>, folders: seq<string>, tables: seq<Table>) {
    ghost predicate Valid() {
      && |tables| == |folders| + 1
      && (forall f | f in folders :: f in listings)
      && forall i | 0 <= i < |folders| :: folders[i] in listings && Sync(mailbox, tables[i], folders[i], listings[folders[i]], tables[i + 1])
    }
  }

  ghost predicate ThreadedIn(t: Table, mailbox: Id, folders: set<string>) {
    forall id | id in t && t[id].mailbox == mailbox && t[id].folder in folders :: t[id].threadId.Some?
  }

  ghost function Filings(run: Run): (filings: seq<Filing>)
    requires forall t | t in run.tables :: UniqueKeys(t)
    ensures |filings| == |run.tables|
    ensures forall i | 0 <= i < |filings| :: filings[i] == FilingOf(run.tables[i], run.mailbox)
  {
    seq(|run.tables|, i requires 0 <= i < |run.tables| => FilingOf(run.tables[i], run.mailbox))
  }

  /** The mailbox's rows are all in folders of the listing. */
  ghost predicate Listed(t: Table, mailbox: Id, folders: set<string>) {
    forall id | id in t && t[id].mailbox == mailbox :: t[id].folder in folders
  }

  lemma RunStep(run: Run, n: nat)
    requires run.Valid() && n < |run.folders| && UniqueKeys(run.tables[n])
    ensures UniqueKeys(run.tables[n + 1])
    ensures SameElsewhere(run.tables[n], run.tables[n + 1], run.mailbox, run.folders[n])
    ensures ThreadedIn(run.tables[n + 1], run.mailbox, {run.folders[n]})
  {
    var t, folder, t' := run.tables[n], run.folders[n], run.tables[n + 1];
    var parents := SyncAsMirror(run.mailbox, t, folder, run.listings[folder], t');
  }

  lemma SameElsewhereKeeps(t: Table, t': Table, mailbox: Id, folder: string, done: set<string>, listed: set<string>)
    requires SameElsewhere(t, t', mailbox, folder) && ThreadedIn(t', mailbox, {folder})
    ensures ThreadedIn(t, mailbox, done) ==> ThreadedIn(t', mailbox, done + {folder})
    ensures Listed(t, mailbox, listed) && folder in listed ==> Listed(t', mailbox, listed)
  {
  }

  lemma {:induction false} RunKeepsKeys(run: Run, n: nat)
    requires run.Valid() && n <= |run.folders|
    requires UniqueKeys(run.tables[0]) && Listed(run.tables[0], run.mailbox, run.listings.Keys)
    ensures UniqueKeys(run.tables[n]) && Listed(run.tables[n], run.mailbox, run.listings.Keys)
    decreases n
  {
    if n > 0 {
      RunKeepsKeys(run, n - 1);
      RunKeepsKeysNext(run, n - 1);
    }
  }

  lemma RunKeepsKeysNext(run: Run, n: nat)
    requires run.Valid() && n < |run.folders|
    requires UniqueKeys(run.tables[n]) && Listed(run.tables[n], run.mailbox, run.listings.Keys)
    ensures UniqueKeys(run.tables[n + 1]) && Listed(run.tables[n + 1], run.mailbox, run.listings.Keys)
  {
    RunStep(run, n);
    SameElsewhereKeeps(run.tables[n], run.tables[n + 1], run.mailbox, run.folders[n], {}, run.listings.Keys);
  }

  /** A run of syncs is a chain of Refile steps. */
  lemma RunRefiles(s: Server, run: Run)
    requires Describes(s, run.listings) && run.Valid()
    requires UniqueKeys(run.tables[0]) && Listed(run.tables[0], run.mailbox, run.listings.Keys)
    ensures forall t | t in run.tables :: UniqueKeys(t)
    ensures s.Chain(Filings(run), run.folders)
  {
    forall i | 0 <= i < |run.tables|
      ensures UniqueKeys(run.tables[i])
    {
      RunKeepsKeys(run, i);
    }
    forall i | 0 <= i < |run.folders|
      ensures s.Refile(FilingOf(run.tables[i], run.mailbox), run.folders[i], FilingOf(run.tables[i + 1], run.mailbox))
    {
      SyncRefiles(s, run.listings, run.mailbox, run.tables[i], run.folders[i], run.tables[i + 1]);
    }
  }

  lemma RunThreadsNext(run: Run, lo: nat, hi: nat)
    requires run.Valid() && lo <= hi < |run.folders| && UniqueKeys(run.tables[hi])
    requires ThreadedIn(run.tables[hi], run.mailbox, Reached(run.folders, lo, hi))
    ensures ThreadedIn(run.tables[hi + 1], run.mailbox, Reached(run.folders, lo, hi + 1))
  {
    RunStep(run, hi);
    SameElsewhereKeeps(run.tables[hi], run.tables[hi + 1], run.mailbox, run.folders[hi], Reached(run.folders, lo, hi), {});
    ReachedNext(run.folders, lo, hi);
  }

  /** Every folder a run has reached holds only threaded rows. */
  lemma {:induction false} RunThreads(run: Run, lo: nat, hi: nat)
    requires run.Valid() && lo <= hi <= |run.folders|
    requires UniqueKeys(run.tables[0]) && Listed(run.tables[0], run.mailbox, run.listings.Keys)
    ensures ThreadedIn(run.tables[hi], run.mailbox, Reached(run.folders, lo, hi))
    decreases hi
  {
    if hi == lo {
      assert Reached(run.folders, lo, hi) == {};
    } else {
      RunThreads(run, lo, hi - 1);
      RunKeepsKeys(run, hi - 1);
      RunThreadsNext(run, lo, hi - 1);
    }
  }

  lemma ListedIsHeld(s: Server, t: Table, mailbox: Id)
    requires UniqueKeys(t) && Listed(t, mailbox, s.held.Keys)
    ensures s.OnlyHeld(FilingOf(t, mailbox))
  {
    forall k | k in FilingOf(t, mailbox)
      ensures k.folder in s.held
    {
      var id :| RowAt(t, id, mailbox, k);
    }
  }

  lemma SettledRow(s: Server, t: Table, mailbox: Id, n: nat, id: Id, top: string)
    requires UniqueKeys(t) && s.Settled(FilingOf(t, mailbox), s.held.Keys, n)
    requires Listed(t, mailbox, s.held.Keys) && ThreadedIn(t, mailbox, s.held.Keys)
    requires id in t && t[id].mailbox == mailbox && TopWithin(s.links, t[id].messageId, n, top)
    ensures t[id].threadId == Some(top)
  {
    assert RowAt(t, id, mailbox, Place(t[id].folder, t[id].messageId));
  }

  /**
   * Whatever rows the mailbox starts from, after n + 1 rounds of syncs every row whose message has
   * its topmost ancestor at most n reply links up carries that ancestor as thread id.
   */
  lemma ConversationsConverge(s: Server, run: Run, cuts: seq<nat>, n: nat, id: Id, top: string)
    requires Describes(s, run.listings) && run.Valid()
    requires UniqueKeys(run.tables[0]) && Listed(run.tables[0], run.mailbox, run.listings.Keys)
    requires s.Rounds(run.folders, cuts) && n + 1 < |cuts|
    requires id in run.tables[cuts[n + 1]] && run.tables[cuts[n + 1]][id].mailbox == run.mailbox
    requires TopWithin(s.links, run.tables[cuts[n + 1]][id].messageId, n, top)
    ensures run.tables[cuts[n + 1]][id].threadId == Some(top)
  {
    var lo, hi := cuts[n], cuts[n + 1];
    assert lo <= hi && s.held.Keys <= Reached(run.folders, lo, hi);
    RunRefiles(s, run);
    RunKeepsKeys(run, cuts[0]);
    ListedIsHeld(s, run.tables[cuts[0]], run.mailbox);
    RunKeepsKeys(run, hi);
    RunThreads(run, lo, hi);
    ThreadsConverge(s, Filings(run), run.folders, cuts, n);
    SettledRow(s, run.tables[hi], run.mailbox, n, id, top);
  }

  // ----- A mailbox of one folder -----

  lemma OneFolderFiled(s: Server, run: Run, folder: string, n: nat)
    requires Describes(s, run.listings) && run.Valid() && run.listings.Keys == {folder}
    requires UniqueKeys(run.tables[0]) && Listed(run.tables[0], run.mailbox, {folder}) && 0 < n <= |run.folders|
    ensures UniqueKeys(run.tables[n]) && Listed(run.tables[n], run.mailbox, {folder}) && ThreadedIn(run.tables[n], run.mailbox, {folder})
    ensures AllCarried(s.links, FilingOf(run.tables[0], run.mailbox), folder, FilingOf(run.tables[n], run.mailbox), n)
  {
    RunRefiles(s, run);
    ListedIsHeld(s, run.tables[0], run.mailbox);
    RunKeepsKeys(run, n);
    RunKeepsKeys(run, n - 1);
    assert run.folders[n - 1] in run.folders;
    RunStep(run, n - 1);
    FromAnything(s, folder, Filings(run), run.folders, n);
  }

  /** From any rows, the n-th sync gives each row the thread of the formula. */
  lemma NthSyncCarries(s: Server, run: Run, folder: string, n: nat, id: Id)
    requires Describes(s, run.listings) && run.Valid() && run.listings.Keys == {folder}
    requires UniqueKeys(run.tables[0]) && Listed(run.tables[0], run.mailbox, {folder}) && 0 < n <= |run.folders|
    requires id in run.tables[n] && run.tables[n][id].mailbox == run.mailbox
    ensures run.tables[n][id].threadId
         == Some(Carried(s.links, FilingOf(run.tables[0], run.mailbox), folder, run.tables[n][id].messageId, n))
  {
    OneFolderFiled(s, run, folder, n);
    var row := run.tables[n][id];
    assert RowAt(run.tables[n], id, run.mailbox, Place(folder, row.messageId));
  }

  /** A run over one folder of a mailbox that starts without rows. */
  ghost predicate FromEmpty(s: Server, run: Run, folder: string) {
    && Describes(s, run.listings) && run.Valid() && run.listings.Keys == {folder}
    && UniqueKeys(run.tables[0])
    && forall at | at in run.tables[0] :: run.tables[0][at].mailbox != run.mailbox
  }

  lemma NothingFiled(t: Table, mailbox: Id)
    requires UniqueKeys(t) && forall at | at in t :: t[at].mailbox != mailbox
    ensures FilingOf(t, mailbox) == map[]
  {
    assert forall k: Place :: k !in FilingOf(t, mailbox);
  }

  /** From an empty mailbox, the n-th sync gives each row its n-th ancestor, or its top when that is nearer. */
  lemma NthSyncGivesNthAncestor(s: Server, run: Run, folder: string, n: nat, id: Id)
    requires FromEmpty(s, run, folder)
    requires 0 < n <= |run.folders| && id in run.tables[n] && run.tables[n][id].mailbox == run.mailbox
    ensures run.tables[n][id].threadId == Some(Up(s.links, run.tables[n][id].messageId, n))
  {
    NthSyncCarries(s, run, folder, n, id);
    NothingFiled(run.tables[0], run.mailbox);
    CarriedFromNothing(s.links, folder, run.tables[n][id].messageId, n);
  }

  ghost predicate IsRowOf(run: Run, n: nat, messageId: string, id: Id) {
    n < |run.tables| && id in run.tables[n] && run.tables[n][id].mailbox == run.mailbox && run.tables[n][id].messageId == messageId
  }

  /** Every row of the message carries this thread after the n-th sync. */
  ghost predicate RowsThreaded(run: Run, n: nat, messageId: string, thread: string) {
    forall id | IsRowOf(run, n, messageId, id) :: run.tables[n][id].threadId == Some(thread)
  }

  /** Two messages replying to each other, listed in an empty mailbox: the n-th sync files a under b or
      under itself by turns, so no sync leaves its thread as it was. */
  lemma MutualRowsNeverSettle(s: Server, run: Run, folder: string, a: string, b: string, n: nat)
    requires FromEmpty(s, run, folder)
    requires a in s.links && b in s.links && s.links[a] == Some(b) && s.links[b] == Some(a)
    requires 0 < n <= |run.folders|
    ensures RowsThreaded(run, n, a, if n % 2 == 0 then a else b)
  {
    MutualUp(s.links, a, b, n);
    forall id | IsRowOf(run, n, a, id)
      ensures run.tables[n][id].threadId == Some(if n % 2 == 0 then a else b)
    {
      NthSyncGivesNthAncestor(s, run, folder, n, id);
    }
  }

  // ----- Syncing a settled folder again -----

  /** The folder already holds exactly the usable messages, as the listing gives them. */
  ghost predicate Current(t: Table, mailbox: Id, folder: string, usable: seq<ImapMessage>) {
    && (forall id | id in t && t[id].In(mailbox, folder) :: exists m :: m in usable && Carries(t[id], m))
    && (forall m | m in usable :: Holds(t, Key(mailbox, folder, m.messageId)))
  }

  /** A sync that finds the folder current and moves no thread leaves every row as it was. */
  lemma SyncIsFixpoint(mailbox: Id, t: Table, folder: string, listing: seq<ImapMessage>, t': Table)
    requires UniqueKeys(t) && Sync(mailbox, t, folder, listing, t') && Current(t, mailbox, folder, Usable(listing))
    requires FilingOf(t, mailbox) == (SyncKeepsKeys(mailbox, t, folder, listing, t'); FilingOf(t', mailbox))
    requires ThreadedIn(t, mailbox, {folder})
    ensures t' == t
  {
    var parents := SyncAsMirror(mailbox, t, folder, listing, t');
    UsableMessages(listing);
    MirrorIsFixpoint(mailbox, t, folder, t', Usable(listing), parents, FilingOf(t, mailbox));
  }

  lemma MirrorIsFixpoint(mailbox: Id, t: Table, folder: string, t': Table, usable: seq<ImapMessage>, parents: map<string, string>, filing: Filing)
    requires UniqueKeys(t) && DistinctKeys(usable, MESSAGE_ID) && SameElsewhere(t, t', mailbox, folder)
    requires FolderShows(t', mailbox, folder, usable, parents)
    requires Mirrors(t, t', mailbox, folder, usable, parents) && Current(t, mailbox, folder, usable)
    requires Files(t, mailbox, filing) && Files(t', mailbox, filing) && ThreadedIn(t, mailbox, {folder})
    ensures t' == t
  {
    NoRowAdded(mailbox, t, folder, t', usable, parents);
    NoRowChanged(mailbox, t, folder, t', usable, parents, filing);
  }

  /** The row already held for a message is the one that shows it afterwards. */
  lemma HeldRowShows(mailbox: Id, t: Table, folder: string, t': Table, usable: seq<ImapMessage>, id: Id, i: nat)
    requires UniqueKeys(t') && i < |usable| && Holds(t, Key(mailbox, folder, usable[i].messageId))
    requires forall at | at in t && t[at].In(mailbox, folder) :: HasKey(usable, t[at].messageId, MESSAGE_ID) ==> at in t'
    requires forall at | at in t && at in t' :: SameOrigin(t[at], t'[at])
    requires id in t' && KeyOf(t'[id]) == Key(mailbox, folder, usable[i].messageId)
    ensures id in t
  {
    var at :| at in t && KeyOf(t[at]) == Key(mailbox, folder, usable[i].messageId);
    assert MESSAGE_ID(usable[i]) == t[at].messageId;
    assert KeyOf(t'[at]) == KeyOf(t'[id]);
  }

  lemma NoRowAdded(mailbox: Id, t: Table, folder: string, t': Table, usable: seq<ImapMessage>, parents: map<string, string>)
    requires UniqueKeys(t') && FolderShows(t', mailbox, folder, usable, parents) && SameElsewhere(t, t', mailbox, folder)
    requires forall at | at in t && t[at].In(mailbox, folder) :: HasKey(usable, t[at].messageId, MESSAGE_ID) ==> at in t'
    requires forall at | at in t && at in t' :: SameOrigin(t[at], t'[at])
    requires forall m | m in usable :: Holds(t, Key(mailbox, folder, m.messageId))
    ensures forall id | id in t' :: id in t
  {
    forall id | id in t'
      ensures id in t
    {
      if t'[id].In(mailbox, folder) {
        var m :| m in usable && Shows(t'[id], m, parents);
        var i :| 0 <= i < |usable| && usable[i] == m;
        HeldRowShows(mailbox, t, folder, t', usable, id, i);
      }
    }
  }

  lemma NoRowChanged(mailbox: Id, t: Table, folder: string, t': Table, usable: seq<ImapMessage>, parents: map<string, string>, filing: Filing)
    requires UniqueKeys(t) && DistinctKeys(usable, MESSAGE_ID)
    requires Mirrors(t, t', mailbox, folder, usable, parents) && Current(t, mailbox, folder, usable)
    requires Files(t, mailbox, filing) && Files(t', mailbox, filing) && ThreadedIn(t, mailbox, {folder})
    ensures forall id | id in t :: id in t' && t'[id] == t[id]
  {
    forall id | id in t
      ensures id in t' && t'[id] == t[id]
    {
      if t[id].In(mailbox, folder) {
        var m :| m in usable && Carries(t[id], m);
        var i :| 0 <= i < |usable| && usable[i] == m;
        assert MESSAGE_ID(usable[i]) == t[id].messageId;
        SameRow(mailbox, t, folder, t', usable, parents, id, i, filing);
      }
    }
  }

  lemma SyncKeepsKeys(mailbox: Id, t: Table, folder: string, listing: seq<ImapMessage>, t': Table)
    requires UniqueKeys(t) && Sync(mailbox, t, folder, listing, t')
    ensures UniqueKeys(t')
  {
    var parents := SyncAsMirror(mailbox, t, folder, listing, t');
  }

  lemma SameRow(mailbox: Id, t: Table, folder: string, t': Table, usable: seq<ImapMessage>, parents: map<string, string>, id: Id, i: nat, filing: Filing)
    requires DistinctKeys(usable, MESSAGE_ID)
    requires id in t && id in t' && SameOrigin(t[id], t'[id]) && t[id].In(mailbox, folder) && t[id].threadId.Some?
    requires i < |usable| && Carries(t[id], usable[i])
    requires exists m :: m in usable && Shows(t'[id], m, parents)
    requires Files(t, mailbox, filing) && Files(t', mailbox, filing)
    ensures t'[id] == t[id]
  {
    var m :| m in usable && Shows(t'[id], m, parents);
    var j :| 0 <= j < |usable| && usable[j] == m;
    assert MESSAGE_ID(usable[i]) == MESSAGE_ID(usable[j]);
    var k := Place(folder, t[id].messageId);
    assert RowAt(t, id, mailbox, k) && RowAt(t', id, mailbox, k);
  }

  // ----- The run comes to rest -----

  lemma SyncedIsCurrent(mailbox: Id, t: Table, folder: string, listing: seq<ImapMessage>, t': Table)
    requires UniqueKeys(t) && Sync(mailbox, t, folder, listing, t')
    ensures Current(t', mailbox, folder, Usable(listing))
  {
    var parents := SyncAsMirror(mailbox, t, folder, listing, t');
    forall id | id in t' && t'[id].In(mailbox, folder)
      ensures exists m :: m in Usable(listing) && Carries(t'[id], m)
    {
      var m :| m in Usable(listing) && Shows(t'[id], m, parents);
    }
  }

  lemma CurrentElsewhere(t: Table, t': Table, mailbox: Id, folder: string, other: string, usable: seq<ImapMessage>)
    requires SameElsewhere(t, t', mailbox, folder) && other != folder && Current(t, mailbox, other, usable)
    ensures Current(t', mailbox, other, usable)
  {
    forall m | m in usable
      ensures Holds(t', Key(mailbox, other, m.messageId))
    {
      var id :| id in t && KeyOf(t[id]) == Key(mailbox, other, m.messageId);
      assert KeyOf(t'[id]) == Key(mailbox, other, m.messageId);
    }
  }

  /** What the i-th sync does to a folder: it shows its listing, or stays as it was. */
  ghost predicate KeepsCurrent(t: Table, t': Table, mailbox: Id, synced: string, f: string, usable: seq<ImapMessage>) {
    if synced == f then Current(t', mailbox, f, usable) else SameElsewhere(t, t', mailbox, synced)
  }

  lemma {:induction false} StaysCurrent(tables: seq<Table>, folders: seq<string>, mailbox: Id, f: string, usable: seq<ImapMessage>, k: nat, hi: nat)
    requires k < hi <= |folders| && |tables| == |folders| + 1 && folders[k] == f
    requires forall i | k <= i < hi :: KeepsCurrent(tables[i], tables[i + 1], mailbox, folders[i], f, usable)
    ensures Current(tables[hi], mailbox, f, usable)
    decreases hi
  {
    assert KeepsCurrent(tables[hi - 1], tables[hi], mailbox, folders[hi - 1], f, usable);
    if folders[hi - 1] != f {
      StaysCurrent(tables, folders, mailbox, f, usable, k, hi - 1);
      CurrentElsewhere(tables[hi - 1], tables[hi], mailbox, folders[hi - 1], f, usable);
    }
  }

  lemma StepKeepsCurrent(run: Run, i: nat, f: string)
    requires run.Valid() && i < |run.folders| && UniqueKeys(run.tables[i]) && f in run.listings
    ensures KeepsCurrent(run.tables[i], run.tables[i + 1], run.mailbox, run.folders[i], f, Usable(run.listings[f]))
  {
    RunStep(run, i);
    if run.folders[i] == f {
      SyncedIsCurrent(run.mailbox, run.tables[i], f, run.listings[f], run.tables[i + 1]);
    }
  }

  /** A folder a run has synced shows its listing from then on. */
  lemma RunCurrent(run: Run, k: nat, hi: nat)
    requires run.Valid() && k < hi <= |run.folders|
    requires UniqueKeys(run.tables[0]) && Listed(run.tables[0], run.mailbox, run.listings.Keys)
    ensures Current(run.tables[hi], run.mailbox, run.folders[k], Usable(run.listings[run.folders[k]]))
  {
    var f := run.folders[k];
    forall i | k <= i < hi
      ensures KeepsCurrent(run.tables[i], run.tables[i + 1], run.mailbox, run.folders[i], f, Usable(run.listings[f]))
    {
      RunKeepsKeys(run, i);
      StepKeepsCurrent(run, i, f);
    }
    StaysCurrent(run.tables, run.folders, run.mailbox, f, Usable(run.listings[f]), k, hi);
  }

  /** When no reply chain is longer than n links, after n + 1 rounds a further sync changes no row at all. */
  lemma FurtherSyncsChangeNothing(s: Server, run: Run, cuts: seq<nat>, n: nat, folder: string, t': Table)
    requires Describes(s, run.listings) && run.Valid()
    requires UniqueKeys(run.tables[0]) && Listed(run.tables[0], run.mailbox, run.listings.Keys)
    requires s.Rounds(run.folders, cuts) && n + 1 < |cuts|
    requires forall x | x in s.links :: IsTop(s.links, Up(s.links, x, n))
    requires folder in run.listings && Sync(run.mailbox, run.tables[cuts[n + 1]], folder, run.listings[folder], t')
    ensures t' == run.tables[cuts[n + 1]]
  {
    var lo, hi := cuts[n], cuts[n + 1];
    var t := run.tables[hi];
    assert lo <= hi && s.held.Keys <= Reached(run.folders, lo, hi);
    RunRefiles(s, run);
    RunKeepsKeys(run, cuts[0]);
    ListedIsHeld(s, run.tables[cuts[0]], run.mailbox);
    RunKeepsKeys(run, hi);
    RunThreads(run, lo, hi);
    var k :| lo <= k < hi && run.folders[k] == folder;
    RunCurrent(run, k, hi);
    ThreadsConverge(s, Filings(run), run.folders, cuts, n);
    SyncRefiles(s, run.listings, run.mailbox, t, folder, t');
    SettledThreadsStay(s, FilingOf(t, run.mailbox), folder, FilingOf(t', run.mailbox), n);
    SyncIsFixpoint(run.mailbox, t, folder, run.listings[folder], t');
  }
}
