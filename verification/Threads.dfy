/**
 * Conversations over repeated syncs. A sync files each message under the thread its parent's row
 * had before the sync, so thread ids travel one reply link per round of syncs and settle.
 */
module Threads {
  import opened Prelude

  // ----- Reply chains -----

  /** For each known message, what it replies to. */
  type Links = map<string, Option<string>>

  ghost predicate IsTop(links: Links, x: string) {
    x !in links || links[x].None?
  }

  ghost function Parent(links: Links, x: string): string {
    if IsTop(links, x) then x else links[x].value
  }

  /** The ancestor n links up, or the topmost one if the chain is shorter. */
  ghost function Up(links: Links, x: string, n: nat): string
    decreases n
  {
    if n == 0 then x else Up(links, Parent(links, x), n - 1)
  }

  /** r is the topmost ancestor of x, at most n links up. */
  ghost predicate TopWithin(links: Links, x: string, n: nat, r: string) {
    r == Up(links, x, n) && IsTop(links, r)
  }

  lemma {:induction false} UpStaysAtTop(links: Links, x: string, n: nat)
    requires IsTop(links, x)
    ensures Up(links, x, n) == x
  {
    if n > 0 {
      UpStaysAtTop(links, x, n - 1);
    }
  }

  lemma {:induction false} UpAdds(links: Links, x: string, m: nat, n: nat)
    ensures Up(links, x, m + n) == Up(links, Up(links, x, m), n)
    decreases m
  {
    if m > 0 {
      UpAdds(links, Parent(links, x), m - 1, n);
    }
  }

  /** There is one topmost ancestor, however far one looks. */
  lemma TopIsUnique(links: Links, x: string, m: nat, n: nat, a: string, b: string)
    requires TopWithin(links, x, m, a) && TopWithin(links, x, n, b)
    ensures a == b
  {
    if m <= n {
      UpAdds(links, x, m, n - m);
      UpStaysAtTop(links, a, n - m);
    } else {
      UpAdds(links, x, n, m - n);
      UpStaysAtTop(links, b, m - n);
    }
  }

  // ----- How a mailbox is filed -----

  /** The folders synced between two points of a run. */
  ghost function Reached(folders: seq<string>, lo: nat, hi: nat): set<string>
    requires hi <= |folders|
  {
    set i | lo <= i < hi :: folders[i]
  }

  datatype Place = Place(folder: string, messageId: string)

  /** The thread id of every threaded row of one mailbox. */
  type Filing = map<Place, string>

  /** What the server holds by folder; links says what each held message replies to. */
  datatype Server = Server(held: map<string, set<string>>, links: Links) {
    ghost predicate Consistent() {
      && (forall f, x | f in held && x in held[f] :: x in links)
      && (forall x | x in links :: exists f :: f in held && x in held[f])
    }

    /** A thread one sync may give a message, from the filing it started with. */
    ghost predicate MayFile(filing: Filing, x: string, thread: string)
      requires x in links
    {
      if links[x].None? then thread == x
      else
        var p := links[x].value;
        if exists k :: k in filing && k.messageId == p
        then exists k :: k in filing && k.messageId == p && filing[k] == thread
        else thread == p
    }

    /** One sync of a folder: its messages are filed anew, other folders stay. */
    ghost predicate Refile(filing: Filing, folder: string, filing': Filing)
      requires Consistent() && folder in held
    {
      && (forall k: Place :: k in filing' <==> if k.folder == folder then k.messageId in held[folder] else k in filing)
      && (forall k | k in filing' && k.folder != folder :: filing'[k] == filing[k])
      && (forall k | k in filing' && k.folder == folder :: MayFile(filing, k.messageId, filing'[k]))
    }

    /** The filings before and after each of a run of syncs. */
    ghost predicate Chain(filings: seq<Filing>, folders: seq<string>)
      requires Consistent()
    {
      && |filings| == |folders| + 1
      && forall i | 0 <= i < |folders| :: folders[i] in held && Refile(filings[i], folders[i], filings[i + 1])
    }

    /** A run cut into rounds, each reaching every folder at least once, in any order. */
    ghost predicate Rounds(folders: seq<string>, cuts: seq<nat>) {
      && cuts != []
      && (forall i | 0 <= i < |cuts| :: cuts[i] <= |folders|)
      && forall i | 0 < i < |cuts| :: cuts[i - 1] <= cuts[i] && held.Keys <= Reached(folders, cuts[i - 1], cuts[i])
    }

    /** These folders hold exactly their messages. */
    ghost predicate Filed(filing: Filing, folders: set<string>) {
      forall k: Place | k.folder in folders :: k in filing <==> k.folder in held && k.messageId in held[k.folder]
    }

    /** No row is left in a folder the server does not have. */
    ghost predicate OnlyHeld(filing: Filing) {
      forall k | k in filing :: k.folder in held
    }

    /** Messages of these folders whose chain tops within h links are filed under its top. */
    ghost predicate Settled(filing: Filing, folders: set<string>, h: nat) {
      forall k | k in filing && k.folder in folders ::
        IsTop(links, Up(links, k.messageId, h)) ==> filing[k] == Up(links, k.messageId, h)
    }

    ghost predicate Ready(filing: Filing) {
      OnlyHeld(filing) && Filed(filing, held.Keys)
    }
  }

  // ----- One sync -----

  /** A sync files every parentless message under itself. */
  lemma RefileFiles(s: Server, filing: Filing, folder: string, filing': Filing)
    requires s.Consistent() && folder in s.held && s.Refile(filing, folder, filing')
    ensures s.Filed(filing', {folder}) && s.Settled(filing', {folder}, 0)
    ensures s.OnlyHeld(filing) ==> s.OnlyHeld(filing')
  {
    forall k | k in filing' && k.folder == folder && IsTop(s.links, k.messageId)
      ensures filing'[k] == k.messageId
    {
      assert s.MayFile(filing, k.messageId, filing'[k]);
    }
  }

  /** A sync carries what is settled one link further. */
  lemma RefileSettles(s: Server, filing: Filing, folder: string, filing': Filing, h: nat)
    requires s.Consistent() && folder in s.held && s.Refile(filing, folder, filing')
    requires s.Ready(filing) && s.Settled(filing, s.held.Keys, h)
    ensures s.Settled(filing', {folder}, h + 1)
  {
    forall k | k in filing' && k.folder == folder && IsTop(s.links, Up(s.links, k.messageId, h + 1))
      ensures filing'[k] == Up(s.links, k.messageId, h + 1)
    {
      FiledThread(s, filing, k.messageId, filing'[k], h);
    }
  }

  lemma FiledThread(s: Server, filing: Filing, x: string, thread: string, h: nat)
    requires s.Consistent() && s.Ready(filing) && s.Settled(filing, s.held.Keys, h)
    requires x in s.links && s.MayFile(filing, x, thread)
    requires IsTop(s.links, Up(s.links, x, h + 1))
    ensures thread == Up(s.links, x, h + 1)
  {
    if s.links[x].None? {
      UpStaysAtTop(s.links, x, h + 1);
    } else {
      var p := s.links[x].value;
      if k :| k in filing && k.messageId == p && filing[k] == thread {
        assert s.Settled(filing, s.held.Keys, h);
      } else {
        if p in s.links {
          KnownIsFiled(s, filing, p);
        }
        UpStaysAtTop(s.links, p, h);
      }
    }
  }

  lemma KnownIsFiled(s: Server, filing: Filing, p: string)
    requires s.Consistent() && s.Ready(filing) && p in s.links
    ensures exists k :: k in filing && k.messageId == p
  {
    var f :| f in s.held && p in s.held[f];
    assert Place(f, p) in filing;
  }

  // ----- Rounds -----

  lemma RefileKeepsFiled(s: Server, filing: Filing, folder: string, filing': Filing, done: set<string>, h: nat)
    requires s.Consistent() && folder in s.held && s.Refile(filing, folder, filing')
    requires s.Filed(filing, done) && s.Settled(filing, done, h)
    requires s.Filed(filing', {folder}) && s.Settled(filing', {folder}, h)
    ensures s.Filed(filing', done + {folder}) && s.Settled(filing', done + {folder}, h)
  {
  }

  lemma ReachedNext(folders: seq<string>, lo: nat, hi: nat)
    requires lo <= hi < |folders|
    ensures Reached(folders, lo, hi + 1) == Reached(folders, lo, hi) + {folders[hi]}
  {
  }

  /** Syncing some folders files them, whatever was there before. */
  lemma {:induction false} ChainFiles(s: Server, filings: seq<Filing>, folders: seq<string>, lo: nat, hi: nat)
    requires s.Consistent() && s.Chain(filings, folders) && lo <= hi <= |folders|
    requires s.OnlyHeld(filings[lo])
    ensures var done := Reached(folders, lo, hi);
            s.OnlyHeld(filings[hi]) && s.Filed(filings[hi], done) && s.Settled(filings[hi], done, 0)
    decreases hi
  {
    if hi == lo {
      assert Reached(folders, lo, hi) == {};
    } else {
      var f, done := folders[hi - 1], Reached(folders, lo, hi - 1);
      ChainFiles(s, filings, folders, lo, hi - 1);
      assert s.Refile(filings[hi - 1], f, filings[hi]);
      RefileFiles(s, filings[hi - 1], f, filings[hi]);
      RefileKeepsFiled(s, filings[hi - 1], f, filings[hi], done, 0);
      ReachedNext(folders, lo, hi - 1);
    }
  }

  /** What holds of chains up to h + 1 links holds of those up to h. */
  lemma ShorterIsSettled(s: Server, filing: Filing, folders: set<string>, h: nat)
    requires s.Settled(filing, folders, h + 1)
    ensures s.Settled(filing, folders, h)
  {
    forall k | k in filing && k.folder in folders && IsTop(s.links, Up(s.links, k.messageId, h))
      ensures filing[k] == Up(s.links, k.messageId, h)
    {
      UpAdds(s.links, k.messageId, h, 1);
      assert Up(s.links, k.messageId, h + 1) == Up(s.links, k.messageId, h);
    }
  }

  lemma SettleStep(s: Server, filing: Filing, folder: string, filing': Filing, done: set<string>, h: nat)
    requires s.Consistent() && folder in s.held && s.Refile(filing, folder, filing')
    requires s.Ready(filing) && s.Settled(filing, s.held.Keys, h)
    requires s.Settled(filing, done, h + 1)
    ensures s.Ready(filing') && s.Settled(filing', s.held.Keys, h) && s.Settled(filing', done + {folder}, h + 1)
  {
    RefileFiles(s, filing, folder, filing');
    RefileSettles(s, filing, folder, filing', h);
    ShorterIsSettled(s, filing', {folder}, h);
    RefileKeepsFiled(s, filing, folder, filing', s.held.Keys, h);
    assert s.held.Keys + {folder} == s.held.Keys;
    RefileKeepsFiled(s, filing, folder, filing', done, h + 1);
  }

  lemma ChainSettlesNext(s: Server, filings: seq<Filing>, folders: seq<string>, lo: nat, hi: nat, h: nat)
    requires s.Consistent() && s.Chain(filings, folders) && lo <= hi < |folders|
    requires s.Ready(filings[hi]) && s.Settled(filings[hi], s.held.Keys, h)
    requires s.Settled(filings[hi], Reached(folders, lo, hi), h + 1)
    ensures s.Ready(filings[hi + 1]) && s.Settled(filings[hi + 1], s.held.Keys, h)
    ensures s.Settled(filings[hi + 1], Reached(folders, lo, hi + 1), h + 1)
  {
    assert s.Refile(filings[hi], folders[hi], filings[hi + 1]);
    ReachedNext(folders, lo, hi);
    SettleStep(s, filings[hi], folders[hi], filings[hi + 1], Reached(folders, lo, hi), h);
  }

  /** Syncing some folders of a filed mailbox carries their threads one link further. */
  lemma {:induction false} ChainSettles(s: Server, filings: seq<Filing>, folders: seq<string>, lo: nat, hi: nat, h: nat)
    requires s.Consistent() && s.Chain(filings, folders) && lo <= hi <= |folders|
    requires s.Ready(filings[lo]) && s.Settled(filings[lo], s.held.Keys, h)
    ensures s.Ready(filings[hi]) && s.Settled(filings[hi], s.held.Keys, h)
    ensures s.Settled(filings[hi], Reached(folders, lo, hi), h + 1)
    decreases hi
  {
    if hi > lo {
      ChainSettles(s, filings, folders, lo, hi - 1, h);
      ChainSettlesNext(s, filings, folders, lo, hi - 1, h);
    }
  }

  /** One round from anything. */
  lemma RoundFiles(s: Server, filings: seq<Filing>, folders: seq<string>, lo: nat, hi: nat)
    requires s.Consistent() && s.Chain(filings, folders) && lo <= hi <= |folders|
    requires s.held.Keys <= Reached(folders, lo, hi) && s.OnlyHeld(filings[lo])
    ensures s.Ready(filings[hi]) && s.Settled(filings[hi], s.held.Keys, 0)
  {
    ChainFiles(s, filings, folders, lo, hi);
  }

  /** One more round. */
  lemma RoundSettles(s: Server, filings: seq<Filing>, folders: seq<string>, lo: nat, hi: nat, h: nat)
    requires s.Consistent() && s.Chain(filings, folders) && lo <= hi <= |folders|
    requires s.held.Keys <= Reached(folders, lo, hi)
    requires s.Ready(filings[lo]) && s.Settled(filings[lo], s.held.Keys, h)
    ensures s.Ready(filings[hi]) && s.Settled(filings[hi], s.held.Keys, h + 1)
  {
    ChainSettles(s, filings, folders, lo, hi, h);
  }

  /**
   * From any filing, after n + 1 rounds every message whose topmost ancestor is at most n links up
   * has it as its thread, in every folder.
   */
  lemma {:induction false} ThreadsConverge(s: Server, filings: seq<Filing>, folders: seq<string>, cuts: seq<nat>, n: nat)
    requires s.Consistent() && s.Chain(filings, folders) && s.Rounds(folders, cuts) && n + 1 < |cuts|
    requires s.OnlyHeld(filings[cuts[0]])
    ensures s.Ready(filings[cuts[n + 1]]) && s.Settled(filings[cuts[n + 1]], s.held.Keys, n)
    decreases n
  {
    assert cuts[n] <= cuts[n + 1] && s.held.Keys <= Reached(folders, cuts[n], cuts[n + 1]);
    if n == 0 {
      RoundFiles(s, filings, folders, cuts[0], cuts[1]);
    } else {
      ThreadsConverge(s, filings, folders, cuts, n - 1);
      RoundSettles(s, filings, folders, cuts[n], cuts[n + 1], n - 1);
    }
  }

  /** Once every thread is a topmost ancestor, a further sync changes none of them. */
  lemma SettledThreadsStay(s: Server, filing: Filing, folder: string, filing': Filing, h: nat)
    requires s.Consistent() && folder in s.held && s.Ready(filing) && s.Refile(filing, folder, filing')
    requires s.Settled(filing, s.held.Keys, h)
    requires forall x | x in s.links :: IsTop(s.links, Up(s.links, x, h))
    ensures filing' == filing
  {
    RefileSettles(s, filing, folder, filing', h);
    ShorterIsSettled(s, filing', {folder}, h);
    forall k: Place
      ensures k in filing' <==> k in filing
      ensures k in filing' ==> filing'[k] == filing[k]
    {
    }
  }

  // ----- One folder, from any filing -----

  /** The thread a sync finds for a parent at the start: the one it is filed under, or its own id. */
  ghost function Start(filing: Filing, folder: string, x: string): string {
    if Place(folder, x) in filing then filing[Place(folder, x)] else x
  }

  /** The thread the n-th sync gives x: its top when that is less than n links up, else what its n-th ancestor started with. */
  ghost function Carried(links: Links, start: Filing, folder: string, x: string, n: nat): string
    requires n > 0
  {
    if IsTop(links, Up(links, x, n - 1)) then Up(links, x, n - 1) else Start(start, folder, Up(links, x, n))
  }

  ghost predicate AllCarried(links: Links, start: Filing, folder: string, filing: Filing, n: nat)
    requires n > 0
  {
    forall k | k in filing :: filing[k] == Carried(links, start, folder, k.messageId, n)
  }

  lemma FirstCarried(s: Server, folder: string, start: Filing, x: string, thread: string)
    requires s.Consistent() && s.held.Keys == {folder} && s.OnlyHeld(start) && x in s.links
    ensures s.MayFile(start, x, thread) <==> thread == Carried(s.links, start, folder, x, 1)
  {
    if s.links[x].Some? {
      var p := s.links[x].value;
      assert Up(s.links, x, 1) == Up(s.links, p, 0);
      forall k | k in start && k.messageId == p
        ensures k == Place(folder, p)
      {
      }
    }
  }

  lemma NextCarried(s: Server, folder: string, start: Filing, filing: Filing, x: string, thread: string, n: nat)
    requires s.Consistent() && s.held.Keys == {folder} && s.Ready(filing) && x in s.links
    requires n > 0 && AllCarried(s.links, start, folder, filing, n)
    ensures s.MayFile(filing, x, thread) <==> thread == Carried(s.links, start, folder, x, n + 1)
  {
    if s.links[x].None? {
      UpStaysAtTop(s.links, x, n);
    } else {
      var p := s.links[x].value;
      if p in s.links {
        KnownIsFiled(s, filing, p);
      } else {
        UpStaysAtTop(s.links, p, n - 1);
      }
    }
  }

  /** In a mailbox of one folder, from any filing, every sync gives exactly the threads of the formula. */
  lemma {:induction false} FromAnything(s: Server, folder: string, filings: seq<Filing>, folders: seq<string>, n: nat)
    requires s.Consistent() && s.held.Keys == {folder} && s.Chain(filings, folders)
    requires s.OnlyHeld(filings[0]) && 0 < n <= |folders|
    ensures s.Ready(filings[n]) && AllCarried(s.links, filings[0], folder, filings[n], n)
    decreases n
  {
    var filing, filing' := filings[n - 1], filings[n];
    assert s.Refile(filing, folders[n - 1], filing');
    if n > 1 {
      FromAnything(s, folder, filings, folders, n - 1);
    }
    RefileFiles(s, filing, folder, filing');
    forall k | k in filing'
      ensures filing'[k] == Carried(s.links, filings[0], folder, k.messageId, n)
    {
      if n == 1 {
        FirstCarried(s, folder, filing, k.messageId, filing'[k]);
      } else {
        NextCarried(s, folder, filings[0], filing, k.messageId, filing'[k], n - 1);
      }
    }
  }

  lemma CarriedFromNothing(links: Links, folder: string, x: string, n: nat)
    requires n > 0
    ensures Carried(links, map[], folder, x, n) == Up(links, x, n)
  {
    UpAdds(links, x, n - 1, 1);
    assert Up(links, Up(links, x, n - 1), 1) == Up(links, Parent(links, Up(links, x, n - 1)), 0);
  }

  /** In a mailbox of one folder the n-th sync from nothing files each message under its n-th ancestor. */
  lemma FromNothing(s: Server, folder: string, filings: seq<Filing>, folders: seq<string>, n: nat)
    requires s.Consistent() && s.held.Keys == {folder} && s.Chain(filings, folders)
    requires filings[0] == map[] && 0 < n <= |folders|
    ensures s.Ready(filings[n])
    ensures forall k | k in filings[n] :: filings[n][k] == Up(s.links, k.messageId, n)
  {
    FromAnything(s, folder, filings, folders, n);
    forall k | k in filings[n]
      ensures filings[n][k] == Up(s.links, k.messageId, n)
    {
      CarriedFromNothing(s.links, folder, k.messageId, n);
    }
  }

  // ----- Runs of any length exist -----

  ghost function FilingAt(s: Server, start: Filing, folder: string, n: nat): Filing
    requires folder in s.held
  {
    if n == 0 then start
    else map x | x in s.held[folder] :: Place(folder, x) := Carried(s.links, start, folder, x, n)
  }

  lemma FilingAtRefiles(s: Server, start: Filing, folder: string, n: nat)
    requires s.Consistent() && s.held.Keys == {folder} && s.OnlyHeld(start)
    ensures s.Refile(FilingAt(s, start, folder, n), folder, FilingAt(s, start, folder, n + 1))
  {
    var filing, filing' := FilingAt(s, start, folder, n), FilingAt(s, start, folder, n + 1);
    forall k | k in filing'
      ensures s.MayFile(filing, k.messageId, filing'[k])
    {
      if n == 0 {
        FirstCarried(s, folder, start, k.messageId, filing'[k]);
      } else {
        NextCarried(s, folder, start, filing, k.messageId, filing'[k], n);
      }
    }
  }

  lemma ChainGrows(s: Server, filings: seq<Filing>, folders: seq<string>, folder: string, filing: Filing)
    requires s.Consistent() && folder in s.held && s.Chain(filings, folders)
    requires s.Refile(filings[|folders|], folder, filing)
    ensures s.Chain(filings + [filing], folders + [folder])
  {
  }

  lemma {:induction false} LongChain(s: Server, start: Filing, folder: string, n: nat) returns (filings: seq<Filing>, folders: seq<string>)
    requires s.Consistent() && s.held.Keys == {folder} && s.OnlyHeld(start)
    ensures s.Chain(filings, folders) && filings[0] == start && |folders| == n
    ensures filings[n] == FilingAt(s, start, folder, n)
  {
    if n == 0 {
      filings, folders := [start], [];
    } else {
      filings, folders := LongChain(s, start, folder, n - 1);
      FilingAtRefiles(s, start, folder, n - 1);
      ChainGrows(s, filings, folders, folder, FilingAt(s, start, folder, n));
      filings, folders := filings + [FilingAt(s, start, folder, n)], folders + [folder];
    }
  }

  // ----- When a thread comes to rest -----

  ghost predicate SameThread(filings: seq<Filing>, i: nat, n: nat, k: Place) {
    i < |filings| && n < |filings| && k in filings[i] && k in filings[n] && filings[i][k] == filings[n][k]
  }

  /** In every run of syncs from this filing, x keeps the thread the n-th sync gives it. */
  ghost predicate KeepsFrom(s: Server, start: Filing, folder: string, x: string, n: nat)
    requires s.Consistent()
  {
    forall filings: seq<Filing>, folders: seq<string>, i: nat
      | s.Chain(filings, folders) && filings[0] == start && n <= i < |filings| ::
      SameThread(filings, i, n, Place(folder, x))
  }

  ghost predicate CarriedFrom(links: Links, start: Filing, folder: string, x: string, n: nat)
    requires n > 0
  {
    forall i: nat | i >= n :: Carried(links, start, folder, x, i) == Carried(links, start, folder, x, n)
  }

  lemma KeepsWhatIsCarried(s: Server, start: Filing, folder: string, x: string, n: nat)
    requires s.Consistent() && s.held.Keys == {folder} && s.OnlyHeld(start) && x in s.held[folder] && n > 0
    ensures KeepsFrom(s, start, folder, x, n) <==> CarriedFrom(s.links, start, folder, x, n)
  {
    var k := Place(folder, x);
    if KeepsFrom(s, start, folder, x, n) {
      forall i: nat | i >= n
        ensures Carried(s.links, start, folder, x, i) == Carried(s.links, start, folder, x, n)
      {
        var filings, folders := LongChain(s, start, folder, i);
        FromAnything(s, folder, filings, folders, i);
        FromAnything(s, folder, filings, folders, n);
        assert SameThread(filings, i, n, k);
      }
    }
    if CarriedFrom(s.links, start, folder, x, n) {
      forall filings: seq<Filing>, folders: seq<string>, i: nat
        | s.Chain(filings, folders) && filings[0] == start && n <= i < |filings|
        ensures SameThread(filings, i, n, k)
      {
        FromAnything(s, folder, filings, folders, i);
        FromAnything(s, folder, filings, folders, n);
      }
    }
  }

  /** The n-th ancestor is its own end: a message without a known parent, or one that replies to itself. */
  ghost predicate EndsAt(links: Links, x: string, n: nat) {
    Parent(links, Up(links, x, n)) == Up(links, x, n)
  }

  lemma {:induction false} UpAtEnd(links: Links, x: string, n: nat)
    requires Parent(links, x) == x
    ensures Up(links, x, n) == x
  {
    if n > 0 {
      UpAtEnd(links, x, n - 1);
    }
  }

  lemma OneMoreUp(links: Links, x: string, n: nat)
    ensures Up(links, x, n + 1) == Parent(links, Up(links, x, n))
  {
    UpAdds(links, x, n, 1);
    assert Up(links, Up(links, x, n), 1) == Up(links, Parent(links, Up(links, x, n)), 0);
  }

  /** From nothing, a message keeps its thread from the n-th sync on exactly when its reply chain has ended by then. */
  lemma SteadyExactlyWhenChainEnds(s: Server, folder: string, x: string, n: nat)
    requires s.Consistent() && s.held.Keys == {folder} && x in s.held[folder] && n > 0
    ensures KeepsFrom(s, map[], folder, x, n) <==> EndsAt(s.links, x, n)
  {
    KeepsWhatIsCarried(s, map[], folder, x, n);
    CarriedFromNothing(s.links, folder, x, n);
    if CarriedFrom(s.links, map[], folder, x, n) {
      CarriedFromNothing(s.links, folder, x, n + 1);
      assert Carried(s.links, map[], folder, x, n + 1) == Carried(s.links, map[], folder, x, n);
      OneMoreUp(s.links, x, n);
    }
    if EndsAt(s.links, x, n) {
      forall i: nat | i >= n
        ensures Carried(s.links, map[], folder, x, i) == Carried(s.links, map[], folder, x, n)
      {
        CarriedFromNothing(s.links, folder, x, i);
        UpAdds(s.links, x, n, i - n);
        UpAtEnd(s.links, Up(s.links, x, n), i - n);
      }
    }
  }

  /** From the m-th ancestor on the chain goes round in p links, and everyone in the round started in one thread.
      A topmost ancestor is a round of its own. */
  ghost predicate RoundAgrees(links: Links, start: Filing, folder: string, x: string, m: nat, p: nat) {
    && p > 0 && Up(links, x, m + p) == Up(links, x, m)
    && forall k: nat | m <= k < m + p :: Start(start, folder, Up(links, x, k)) == Start(start, folder, Up(links, x, m))
  }

  lemma {:induction false} RoundRepeats(links: Links, x: string, m: nat, p: nat, k: nat) returns (j: nat)
    requires p > 0 && Up(links, x, m + p) == Up(links, x, m) && m <= k
    ensures m <= j < m + p && Up(links, x, k) == Up(links, x, j)
    decreases k
  {
    if k < m + p {
      j := k;
    } else {
      j := RoundRepeats(links, x, m, p, k - p);
      UpAdds(links, x, m + p, k - p - m);
      UpAdds(links, x, m, k - p - m);
    }
  }

  /** A round that reaches a topmost ancestor consists of it alone. */
  lemma TopIsWholeRound(links: Links, x: string, m: nat, p: nat, k: nat)
    requires p > 0 && Up(links, x, m + p) == Up(links, x, m) && m <= k && IsTop(links, Up(links, x, k))
    ensures Up(links, x, k) == Up(links, x, m)
  {
    var j := RoundRepeats(links, x, m, p, k);
    UpAdds(links, x, j, m + p - j);
    UpStaysAtTop(links, Up(links, x, j), m + p - j);
  }

  lemma TopStays(links: Links, x: string, m: nat, k: nat)
    requires m <= k && IsTop(links, Up(links, x, m))
    ensures Up(links, x, k) == Up(links, x, m)
  {
    UpAdds(links, x, m, k - m);
    UpStaysAtTop(links, Up(links, x, m), k - m);
  }

  lemma AgreeingRoundCarries(links: Links, start: Filing, folder: string, x: string, m: nat, p: nat, i: nat)
    requires RoundAgrees(links, start, folder, x, m, p) && i > m
    ensures Carried(links, start, folder, x, i)
         == if IsTop(links, Up(links, x, m)) then Up(links, x, m) else Start(start, folder, Up(links, x, m))
  {
    if IsTop(links, Up(links, x, m)) {
      TopStays(links, x, m, i - 1);
    } else {
      if IsTop(links, Up(links, x, i - 1)) {
        TopIsWholeRound(links, x, m, p, i - 1);
      }
      var j := RoundRepeats(links, x, m, p, i);
      assert Start(start, folder, Up(links, x, j)) == Start(start, folder, Up(links, x, m));
    }
  }

  lemma AgreeingRoundRests(links: Links, start: Filing, folder: string, x: string, m: nat, p: nat)
    requires RoundAgrees(links, start, folder, x, m, p)
    ensures CarriedFrom(links, start, folder, x, m + 1)
  {
    AgreeingRoundCarries(links, start, folder, x, m, p, m + 1);
    forall i: nat | i >= m + 1
      ensures Carried(links, start, folder, x, i) == Carried(links, start, folder, x, m + 1)
    {
      AgreeingRoundCarries(links, start, folder, x, m, p, i);
    }
  }

  /** Among more ancestors than there are links, one repeats, unless the chain ends. */
  lemma ChainEndsOrRepeats(links: Links, x: string, n: nat) returns (i: nat, j: nat)
    requires forall h: nat :: !IsTop(links, Up(links, x, h))
    ensures i < j && Up(links, x, n + i) == Up(links, x, n + j)
  {
    var ups := seq(|links.Keys| + 1, h requires h >= 0 => Up(links, x, n + h));
    assert SetOf(ups) <= links.Keys by {
      forall u | u in ups
        ensures u in links
      {
        var h :| 0 <= h < |ups| && ups[h] == u;
        assert !IsTop(links, Up(links, x, n + h));
      }
    }
    SubsetIsSmaller(SetOf(ups), links.Keys);
    SetSize(ups);
    i, j :| 0 <= i < j < |ups| && ups[i] == ups[j];
  }

  lemma RestMeansAgreeingRound(links: Links, start: Filing, folder: string, x: string, n: nat) returns (m: nat, p: nat)
    requires n > 0 && CarriedFrom(links, start, folder, x, n)
    ensures RoundAgrees(links, start, folder, x, m, p)
  {
    if h: nat :| IsTop(links, Up(links, x, h)) {
      m, p := h, 1;
      OneMoreUp(links, x, h);
      assert RoundAgrees(links, start, folder, x, m, p);
    } else {
      var i, j := ChainEndsOrRepeats(links, x, n);
      m, p := n + i, j - i;
      forall k: nat | m <= k < m + p
        ensures Start(start, folder, Up(links, x, k)) == Start(start, folder, Up(links, x, m))
      {
        assert !IsTop(links, Up(links, x, k - 1)) && !IsTop(links, Up(links, x, m - 1));
        assert Carried(links, start, folder, x, k) == Carried(links, start, folder, x, n);
        assert Carried(links, start, folder, x, m) == Carried(links, start, folder, x, n);
      }
    }
  }

  /** From any filing, a message's thread ever comes to rest exactly when its reply chain runs into a round
      whose messages all started in one thread; a chain that ends always does. */
  lemma RestsExactlyWhenRoundAgrees(s: Server, start: Filing, folder: string, x: string)
    requires s.Consistent() && s.held.Keys == {folder} && s.OnlyHeld(start) && x in s.held[folder]
    ensures (exists n: nat :: n > 0 && KeepsFrom(s, start, folder, x, n))
       <==> (exists m: nat, p: nat :: RoundAgrees(s.links, start, folder, x, m, p))
  {
    if n: nat :| n > 0 && KeepsFrom(s, start, folder, x, n) {
      KeepsWhatIsCarried(s, start, folder, x, n);
      var m, p := RestMeansAgreeingRound(s.links, start, folder, x, n);
    }
    if m: nat, p: nat :| RoundAgrees(s.links, start, folder, x, m, p) {
      AgreeingRoundRests(s.links, start, folder, x, m, p);
      KeepsWhatIsCarried(s, start, folder, x, m + 1);
      assert m + 1 > 0 && KeepsFrom(s, start, folder, x, m + 1);
    }
  }

  // ----- Two messages replying to each other -----

  lemma {:induction false} MutualUp(links: Links, a: string, b: string, n: nat)
    requires a in links && b in links && links[a] == Some(b) && links[b] == Some(a)
    ensures Up(links, a, n) == if n % 2 == 0 then a else b
    decreases n
  {
    if n > 0 {
      MutualUp(links, b, a, n - 1);
    }
  }

  lemma MutualThread(s: Server, folder: string, filings: seq<Filing>, folders: seq<string>, a: string, b: string, n: nat)
    requires s.Consistent() && s.held.Keys == {folder} && s.Chain(filings, folders) && s.OnlyHeld(filings[0])
    requires a in s.held[folder] && b in s.held[folder] && s.links[a] == Some(b) && s.links[b] == Some(a)
    requires 0 < n <= |folders|
    ensures s.Ready(filings[n]) && Place(folder, a) in filings[n]
    ensures filings[n][Place(folder, a)] == Start(filings[0], folder, if n % 2 == 0 then a else b)
  {
    FromAnything(s, folder, filings, folders, n);
    MutualUp(s.links, a, b, n - 1);
    MutualUp(s.links, a, b, n);
  }

  /** Two messages replying to each other change thread at every sync exactly when they started in different threads. */
  lemma MutualRepliesSwapThreads(s: Server, folder: string, filings: seq<Filing>, folders: seq<string>, a: string, b: string, n: nat)
    requires s.Consistent() && s.held.Keys == {folder} && s.Chain(filings, folders) && s.OnlyHeld(filings[0])
    requires a in s.held[folder] && b in s.held[folder] && s.links[a] == Some(b) && s.links[b] == Some(a)
    requires 0 < n < |folders|
    ensures !SameThread(filings, n + 1, n, Place(folder, a)) <==> Start(filings[0], folder, a) != Start(filings[0], folder, b)
  {
    MutualThread(s, folder, filings, folders, a, b, n);
    MutualThread(s, folder, filings, folders, a, b, n + 1);
  }

  /** So from nothing they never settle. */
  lemma MutualRepliesNeverSettle(s: Server, folder: string, filings: seq<Filing>, folders: seq<string>, a: string, b: string, n: nat)
    requires s.Consistent() && s.held.Keys == {folder} && s.Chain(filings, folders) && filings[0] == map[]
    requires a != b && a in s.held[folder] && b in s.held[folder] && s.links[a] == Some(b) && s.links[b] == Some(a)
    requires 0 < n < |folders|
    ensures !SameThread(filings, n + 1, n, Place(folder, a))
    ensures s.Ready(filings[n]) && filings[n][Place(folder, a)] == if n % 2 == 0 then a else b
  {
    MutualRepliesSwapThreads(s, folder, filings, folders, a, b, n);
    MutualThread(s, folder, filings, folders, a, b, n);
  }
}
