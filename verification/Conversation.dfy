/** The conversation view of src/messages/message.service.ts: which copies it shows and whose bodies it reads. */
module Conversation {
  import opened Prelude
  import opened KeepBest
  import opened Projection

  datatype Entry = Entry(id: Id, row: Row)

  const MESSAGE_OF := (e: Entry) => e.row.messageId

  function Rank(e: Entry, chosen: Entry): int {
    if e.id == chosen.id then 2 else if e.row.folder == chosen.row.folder then 1 else 0
  }

  function RankFor(chosen: Entry): Entry -> int {
    e => Rank(e, chosen)
  }

  function DedupeThread(rows: seq<Entry>, chosen: Entry): seq<Entry> {
    Best(rows, MESSAGE_OF, RankFor(chosen))
  }

  /** The thread's rows, or the opened row alone when its thread no longer lists it. */
  function Rows(siblings: seq<Entry>, chosen: Entry): seq<Entry> {
    if exists e | e in siblings :: e.id == chosen.id then siblings else [chosen]
  }

  ghost predicate DistinctIds(rows: seq<Entry>) {
    forall a, b | a in rows && b in rows && a.id == b.id :: a == b
  }

  ghost predicate TopRanked(rows: seq<Entry>, e: Entry, chosen: Entry) {
    e in rows && forall r | r in rows && r.row.messageId == e.row.messageId :: Rank(r, chosen) <= Rank(e, chosen)
  }

  lemma ShownAreTopRanked(rows: seq<Entry>, chosen: Entry)
    ensures var shown := DedupeThread(rows, chosen);
            && DistinctKeys(shown, MESSAGE_OF)
            && Covers(rows, shown, MESSAGE_OF)
            && forall i | 0 <= i < |shown| :: TopRanked(rows, shown[i], chosen)
  {
    var shown := DedupeThread(rows, chosen);
    BestIsBest(rows, MESSAGE_OF, RankFor(chosen));
    forall i | 0 <= i < |shown|
      ensures TopRanked(rows, shown[i], chosen)
    {
      assert IsBest(rows, shown[i], MESSAGE_OF, RankFor(chosen));
      forall r | r in rows && r.row.messageId == shown[i].row.messageId
        ensures Rank(r, chosen) <= Rank(shown[i], chosen)
      {
        assert MESSAGE_OF(r) == MESSAGE_OF(shown[i]);
        assert RankFor(chosen)(r) <= RankFor(chosen)(shown[i]);
      }
    }
  }

  predicate Listed(siblings: seq<Entry>, id: Id) {
    exists e | e in siblings :: e.id == id
  }

  /** A thread that lists the opened row is shown with all its messages and nothing else, each once; otherwise the opened
      row is shown alone. */
  lemma ConversationView(siblings: seq<Entry>, chosen: Entry)
    requires forall e | e in siblings && e.id == chosen.id :: e == chosen
    ensures var shown := DedupeThread(Rows(siblings, chosen), chosen);
            if Listed(siblings, chosen.id) then ShowsOnce(siblings, chosen, shown) else shown == [chosen]
  {
    assert chosen in Rows(siblings, chosen);
    RowsShown(Rows(siblings, chosen), chosen);
    if !Listed(siblings, chosen.id) {
      OneMessageShown(DedupeThread([chosen], chosen), chosen);
    }
  }

  ghost predicate IsShown(shown: seq<Entry>, messageId: string) {
    exists e :: e in shown && e.row.messageId == messageId
  }

  predicate SameMessage(a: Entry, b: Entry) {
    a.row.messageId == b.row.messageId
  }

  /** The opened row, and each message of the rows by one of its copies, from the opened folder when there is one. */
  ghost predicate ShowsOnce(rows: seq<Entry>, chosen: Entry, shown: seq<Entry>) {
    && chosen in shown
    && DistinctKeys(shown, MESSAGE_OF)
    && (forall e | e in shown :: e in rows)
    && (forall e | e in rows :: IsShown(shown, e.row.messageId))
    && forall e, s | e in rows && s in shown && SameMessage(e, s) && e.row.folder == chosen.row.folder ::
         s.row.folder == chosen.row.folder
  }

  lemma MessageIsShown(rows: seq<Entry>, chosen: Entry, e: Entry)
    requires e in rows
    ensures IsShown(DedupeThread(rows, chosen), e.row.messageId)
  {
    var shown := DedupeThread(rows, chosen);
    ShownAreTopRanked(rows, chosen);
    var k :| 0 <= k < |shown| && MESSAGE_OF(shown[k]) == MESSAGE_OF(e);
    assert shown[k] in shown;
  }

  lemma ShownIsNearest(rows: seq<Entry>, chosen: Entry, s: Entry)
    requires s in DedupeThread(rows, chosen)
    ensures TopRanked(rows, s, chosen)
  {
    var shown := DedupeThread(rows, chosen);
    ShownAreTopRanked(rows, chosen);
    var k :| 0 <= k < |shown| && shown[k] == s;
    assert TopRanked(rows, shown[k], chosen);
  }

  lemma RowsShown(rows: seq<Entry>, chosen: Entry)
    requires chosen in rows && forall e | e in rows && e.id == chosen.id :: e == chosen
    ensures ShowsOnce(rows, chosen, DedupeThread(rows, chosen))
  {
    var shown := DedupeThread(rows, chosen);
    ShownAreTopRanked(rows, chosen);
    forall e | e in rows
      ensures IsShown(shown, e.row.messageId)
    {
      MessageIsShown(rows, chosen, e);
    }
    forall s | s in shown
      ensures TopRanked(rows, s, chosen)
    {
      ShownIsNearest(rows, chosen, s);
    }
    var s :| s in shown && s.row.messageId == chosen.row.messageId;
    assert Rank(chosen, chosen) <= Rank(s, chosen);
    forall e, s | e in rows && s in shown && SameMessage(e, s) && e.row.folder == chosen.row.folder
      ensures s.row.folder == chosen.row.folder
    {
      assert Rank(e, chosen) <= Rank(s, chosen);
    }
  }

  lemma OneMessageShown(shown: seq<Entry>, chosen: Entry)
    requires ShowsOnce([chosen], chosen, shown)
    ensures shown == [chosen]
  {
    assert |shown| > 1 ==> MESSAGE_OF(shown[0]) != MESSAGE_OF(shown[1]);
    assert forall i | 0 <= i < |shown| :: shown[i] in shown;
  }

  /** How locating a row ends: with an error, with nothing found, or with a uid. */
  datatype Search = Failed | Nothing | Found(uid: nat)

  type Searches = map<Id, Search>

  /** The stored uid, or what the search for the row answers. */
  function Located(e: Entry, searches: Searches): Search {
    if e.row.imapUid.Some? then Found(e.row.imapUid.value)
    else if e.id in searches then searches[e.id] else Nothing
  }

  /** What one folder's fetch answered: None when it failed, else the bodies found by uid. */
  type Fetched<T> = map<string, Option<map<nat, T>>>

  ghost predicate Reads<T>(rows: seq<Entry>, searches: Searches, fetched: Fetched<T>, id: Id, body: T) {
    exists e :: e in rows && e.id == id && BodyOf(e, searches, fetched, body)
  }

  ghost predicate BodyOf<T>(e: Entry, searches: Searches, fetched: Fetched<T>, body: T) {
    && Located(e, searches).Found? && e.row.folder in fetched && fetched[e.row.folder].Some?
    && Located(e, searches).uid in fetched[e.row.folder].value && fetched[e.row.folder].value[Located(e, searches).uid] == body
  }

  /** The uid a row's body is read under: the stored one, else the one the search found. */
  predicate HasUid(e: Entry, searches: Searches, uid: nat) {
    e.row.imapUid == Some(uid) || (e.row.imapUid == None && e.id in searches && searches[e.id] == Found(uid))
  }

  /** A row's body is what its folder's fetch found under its uid; a row cannot be located when its uid is not stored and
      the search failed. */
  lemma BodyUnderUid<T>(e: Entry, searches: Searches, fetched: Fetched<T>, body: T)
    ensures BodyOf(e, searches, fetched, body) <==>
              exists uid :: HasUid(e, searches, uid) && e.row.folder in fetched && fetched[e.row.folder].Some?
                            && uid in fetched[e.row.folder].value && fetched[e.row.folder].value[uid] == body
    ensures Located(e, searches).Failed? <==> e.row.imapUid == None && e.id in searches && searches[e.id].Failed?
  {
    if BodyOf(e, searches, fetched, body) {
      assert HasUid(e, searches, Located(e, searches).uid);
    }
  }

  type Groups = map<string, seq<(Id, nat)>>

  ghost predicate Grouped(rows: seq<Entry>, n: nat, searches: Searches, groups: Groups)
    requires n <= |rows|
  {
    && (forall f, p | f in groups && p in groups[f] ::
          exists i :: 0 <= i < n && InGroup(rows[i], searches, f, p))
    && (forall i | 0 <= i < n && Located(rows[i], searches).Found? ::
          rows[i].row.folder in groups && (rows[i].id, Located(rows[i], searches).uid) in groups[rows[i].row.folder])
  }

  ghost predicate InGroup(e: Entry, searches: Searches, f: string, p: (Id, nat)) {
    Located(e, searches).Found? && f == e.row.folder && p == (e.id, Located(e, searches).uid)
  }

  method GroupByFolder(rows: seq<Entry>, searches: Searches) returns (groups: Groups)
    ensures Grouped(rows, |rows|, searches, groups)
  {
    groups := map[];
    for i := 0 to |rows|
      invariant Grouped(rows, i, searches, groups)
    {
      var e := rows[i];
      if Located(e, searches).Found? {
        ghost var before := groups;
        var p := (e.id, Located(e, searches).uid);
        groups := groups[e.row.folder := (if e.row.folder in groups then groups[e.row.folder] else []) + [p]];
        forall f, q | f in groups && q in groups[f]
          ensures exists k :: 0 <= k < i + 1 && InGroup(rows[k], searches, f, q)
        {
          if f in before && q in before[f] {
            var k :| 0 <= k < i && InGroup(rows[k], searches, f, q);
          } else {
            assert InGroup(rows[i], searches, f, q);
          }
        }
      }
    }
  }

  ghost predicate AllRead<T>(rows: seq<Entry>, searches: Searches, fetched: Fetched<T>, bodies: map<Id, T>) {
    forall id | id in bodies :: Reads(rows, searches, fetched, id, bodies[id])
  }

  /** One folder's part of the loop: its rows get what was found under their uids. */
  method ReadFolder<T>(rows: seq<Entry>, searches: Searches, fetched: Fetched<T>, folder: string, entries: seq<(Id, nat)>,
                       found: map<nat, T>, before: map<Id, T>) returns (bodies: map<Id, T>)
    requires AllRead(rows, searches, fetched, before)
    requires folder in fetched && fetched[folder] == Some(found)
    requires forall p | p in entries :: exists i :: 0 <= i < |rows| && InGroup(rows[i], searches, folder, p)
    ensures AllRead(rows, searches, fetched, bodies) && before.Keys <= bodies.Keys
    ensures forall p | p in entries && p.1 in found :: p.0 in bodies
  {
    bodies := before;
    for i := 0 to |entries|
      invariant AllRead(rows, searches, fetched, bodies) && before.Keys <= bodies.Keys
      invariant forall k | 0 <= k < i :: entries[k].1 in found ==> entries[k].0 in bodies
    {
      var (id, uid) := entries[i];
      if uid in found {
        assert entries[i] in entries;
        ghost var k :| 0 <= k < |rows| && InGroup(rows[k], searches, folder, entries[i]);
        assert rows[k] in rows && BodyOf(rows[k], searches, fetched, found[uid]);
        bodies := bodies[id := found[uid]];
      }
    }
  }

  lemma BodyIsUnique<T>(rows: seq<Entry>, searches: Searches, fetched: Fetched<T>, id: Id, a: T, b: T)
    requires DistinctIds(rows) && Reads(rows, searches, fetched, id, a) && Reads(rows, searches, fetched, id, b)
    ensures a == b
  {
    var e :| e in rows && e.id == id && BodyOf(e, searches, fetched, a);
    var f :| f in rows && f.id == id && BodyOf(f, searches, fetched, b);
  }

  /** Every row gets the body found under its own uid in its own folder, and a folder whose fetch fails leaves
      only its own rows without one. */
  method ReadFolders<T(!new)>(rows: seq<Entry>, searches: Searches, fetched: Fetched<T>) returns (bodies: map<Id, T>)
    requires DistinctIds(rows)
    ensures forall id, body :: id in bodies && bodies[id] == body <==> Reads(rows, searches, fetched, id, body)
  {
    var groups := GroupByFolder(rows, searches);
    bodies := map[];
    var todo := groups.Keys;
    while todo != {}
      invariant todo <= groups.Keys && AllRead(rows, searches, fetched, bodies)
      invariant forall f, p | f in groups && f !in todo && p in groups[f] ::
                  f in fetched && fetched[f].Some? && p.1 in fetched[f].value ==> p.0 in bodies
      decreases |todo|
    {
      var folder :| folder in todo;
      todo := todo - {folder};
      if folder in fetched && fetched[folder].Some? {
        bodies := ReadFolder(rows, searches, fetched, folder, groups[folder], fetched[folder].value, bodies);
      }
    }
    forall id, body | Reads(rows, searches, fetched, id, body)
      ensures id in bodies && bodies[id] == body
    {
      var e :| e in rows && e.id == id && BodyOf(e, searches, fetched, body);
      var i :| 0 <= i < |rows| && rows[i] == e;
      assert (e.id, Located(e, searches).uid) in groups[e.row.folder];
      BodyIsUnique(rows, searches, fetched, id, body, bodies[id]);
    }
  }

  /** fetchThreadBodies: one row that cannot be located fails the whole call; otherwise the folders are read. */
  method FetchThreadBodies<T(!new)>(rows: seq<Entry>, searches: Searches, fetched: Fetched<T>) returns (bodies: Option<map<Id, T>>)
    requires DistinctIds(rows)
    ensures bodies.None? <==> exists e :: e in rows && Located(e, searches).Failed?
    ensures bodies.Some? ==>
              forall id, body :: id in bodies.value && bodies.value[id] == body <==> Reads(rows, searches, fetched, id, body)
  {
    for i := 0 to |rows|
      invariant forall k | 0 <= k < i :: !Located(rows[k], searches).Failed?
    {
      if Located(rows[i], searches).Failed? {
        return None;
      }
    }
    var found := ReadFolders(rows, searches, fetched);
    return Some(found);
  }

  const THREAD_BODY_LIMIT := 25

  /** The rows whose bodies the view reads: the last ones shown. */
  predicate IsRead(shown: seq<Entry>, k: int) {
    0 <= k < |shown| && k >= |shown| - THREAD_BODY_LIMIT
  }

  ghost predicate ReadsLast<T>(shown: seq<Entry>, searches: Searches, fetched: Fetched<T>, id: Id, body: T) {
    exists k :: IsRead(shown, k) && shown[k].id == id && BodyOf(shown[k], searches, fetched, body)
  }

  /** The bodies of the view: of its last rows, each the one found under its own uid; a row that cannot be located among
      them fails the call. */
  method ThreadBodies<T(!new)>(shown: seq<Entry>, searches: Searches, fetched: Fetched<T>) returns (bodies: Option<map<Id, T>>)
    requires DistinctIds(shown)
    ensures bodies.None? <==> exists k :: IsRead(shown, k) && Located(shown[k], searches).Failed?
    ensures bodies.Some? ==>
              forall id, body :: id in bodies.value && bodies.value[id] == body <==> ReadsLast(shown, searches, fetched, id, body)
  {
    var first := if |shown| <= THREAD_BODY_LIMIT then 0 else |shown| - THREAD_BODY_LIMIT;
    LastAreRead(shown, first, searches, fetched);
    bodies := FetchThreadBodies(shown[first..], searches, fetched);
  }

  lemma LastAreRead<T(!new)>(shown: seq<Entry>, first: nat, searches: Searches, fetched: Fetched<T>)
    requires first == if |shown| <= THREAD_BODY_LIMIT then 0 else |shown| - THREAD_BODY_LIMIT
    ensures (exists e :: e in shown[first..] && Located(e, searches).Failed?)
       <==> exists k :: IsRead(shown, k) && Located(shown[k], searches).Failed?
    ensures forall id, body ::
              Reads(shown[first..], searches, fetched, id, body) <==> ReadsLast(shown, searches, fetched, id, body)
  {
    forall k | IsRead(shown, k)
      ensures shown[k] in shown[first..]
    {
      assert shown[first..][k - first] == shown[k];
    }
    forall e | e in shown[first..]
      ensures exists k :: IsRead(shown, k) && shown[k] == e
    {
      var i :| 0 <= i < |shown[first..]| && shown[first..][i] == e;
      assert IsRead(shown, first + i) && shown[first + i] == e;
    }
  }
}
