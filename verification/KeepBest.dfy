/**
 * The two de-duplications of src/messages/message.service.ts: a listing keeps the highest uid of
 * each Message-ID, a conversation keeps the copy ranked closest to the opened message. Both walk
 * the rows with an insertion-ordered Map and replace an entry only for a strictly better one.
 */
module KeepBest {
  /** Map.get: the place of a key among the entries, or their number. */
  function PlaceOf<T>(kept: seq<T>, k: string, key: T -> string): (place: nat)
    ensures place <= |kept|
    ensures place < |kept| ==> key(kept[place]) == k
    ensures forall i | 0 <= i < place :: key(kept[i]) != k
  {
    if kept == [] || key(kept[0]) == k then 0
    else
      var rest := PlaceOf(kept[1..], k, key);
      assert forall i | 0 < i < rest + 1 :: kept[i] == kept[1..][i - 1];
      rest + 1
  }

  /** One step: a new key goes last, a known key keeps its place and the better row. */
  function Absorb<T>(kept: seq<T>, row: T, key: T -> string, score: T -> int): seq<T>
  {
    var place := PlaceOf(kept, key(row), key);
    if place == |kept| then kept + [row]
    else if score(row) > score(kept[place]) then kept[place := row]
    else kept
  }

  function Best<T>(rows: seq<T>, key: T -> string, score: T -> int): seq<T>
  {
    if rows == [] then []
    else Absorb(Best(rows[..|rows| - 1], key, score), rows[|rows| - 1], key, score)
  }

  ghost predicate DistinctKeys<T>(rows: seq<T>, key: T -> string) {
    forall i, j | 0 <= i < j < |rows| :: key(rows[i]) != key(rows[j])
  }

  ghost predicate HasKey<T>(rows: seq<T>, k: string, key: T -> string) {
    exists i | 0 <= i < |rows| :: key(rows[i]) == k
  }

  /** What absorbing a row does to each place of the list. */
  lemma AbsorbPlaces<T>(kept: seq<T>, row: T, key: T -> string, score: T -> int)
    requires DistinctKeys(kept, key)
    ensures var next := Absorb(kept, row, key, score);
            && DistinctKeys(next, key)
            && |next| == |kept| + (if HasKey(kept, key(row), key) then 0 else 1)
            && (forall i | 0 <= i < |kept| ::
                  next[i] == if key(kept[i]) == key(row) && score(row) > score(kept[i]) then row else kept[i])
            && (!HasKey(kept, key(row), key) ==> next[|kept|] == row)
  {
  }

  /** The first row of the highest score among those with its key. */
  ghost predicate IsBest<T>(rows: seq<T>, row: T, key: T -> string, score: T -> int) {
    && (forall r | r in rows :: key(r) == key(row) ==> score(r) <= score(row))
    && exists i | 0 <= i < |rows| :: rows[i] == row && FirstWithScore(rows, i, key, score)
  }

  ghost predicate FirstWithScore<T>(rows: seq<T>, i: nat, key: T -> string, score: T -> int)
    requires i < |rows|
  {
    forall j | 0 <= j < i :: key(rows[j]) == key(rows[i]) ==> score(rows[j]) < score(rows[i])
  }

  ghost predicate AllBest<T>(rows: seq<T>, kept: seq<T>, key: T -> string, score: T -> int) {
    forall i | 0 <= i < |kept| :: IsBest(rows, kept[i], key, score)
  }

  ghost predicate Covers<T>(rows: seq<T>, kept: seq<T>, key: T -> string) {
    forall r | r in rows :: HasKey(kept, key(r), key)
  }

  lemma BestStep<T>(before: seq<T>, best: T, row: T, key: T -> string, score: T -> int)
    requires IsBest(before, best, key, score)
    ensures IsBest(before + [row], if key(best) == key(row) && score(row) > score(best) then row else best, key, score)
  {
    var rows := before + [row];
    if key(best) == key(row) && score(row) > score(best) {
      assert rows[|before|] == row;
      forall j | 0 <= j < |before|
        ensures key(rows[j]) == key(row) ==> score(rows[j]) < score(row)
      {
        assert rows[j] in before;
      }
      assert FirstWithScore(rows, |before|, key, score);
    } else {
      var i :| 0 <= i < |before| && before[i] == best && FirstWithScore(before, i, key, score);
      assert rows[i] == best;
      assert FirstWithScore(rows, i, key, score);
    }
  }

  lemma NewKeyIsBest<T>(before: seq<T>, kept: seq<T>, row: T, key: T -> string, score: T -> int)
    requires Covers(before, kept, key) && !HasKey(kept, key(row), key)
    ensures IsBest(before + [row], row, key, score)
  {
    var rows := before + [row];
    assert rows[|before|] == row;
    forall j | 0 <= j < |before|
      ensures key(rows[j]) != key(row)
    {
      assert rows[j] in before;
    }
    assert FirstWithScore(rows, |before|, key, score);
  }

  lemma CoversStep<T>(before: seq<T>, kept: seq<T>, row: T, key: T -> string, score: T -> int)
    requires DistinctKeys(kept, key) && Covers(before, kept, key)
    ensures Covers(before + [row], Absorb(kept, row, key, score), key)
  {
    var next := Absorb(kept, row, key, score);
    AbsorbPlaces(kept, row, key, score);
    forall r | r in before + [row]
      ensures HasKey(next, key(r), key)
    {
      if HasKey(kept, key(r), key) {
        var i :| 0 <= i < |kept| && key(kept[i]) == key(r);
        assert key(next[i]) == key(r);
      } else {
        assert key(next[|kept|]) == key(r);
      }
    }
  }

  lemma AllBestStep<T>(before: seq<T>, kept: seq<T>, row: T, key: T -> string, score: T -> int)
    requires DistinctKeys(kept, key) && Covers(before, kept, key) && AllBest(before, kept, key, score)
    ensures AllBest(before + [row], Absorb(kept, row, key, score), key, score)
  {
    var next := Absorb(kept, row, key, score);
    AbsorbPlaces(kept, row, key, score);
    forall i | 0 <= i < |next|
      ensures IsBest(before + [row], next[i], key, score)
    {
      if i < |kept| {
        BestStep(before, kept[i], row, key, score);
      } else {
        NewKeyIsBest(before, kept, row, key, score);
      }
    }
  }

  /** One row per key, each the first best of its key, and no key forgotten. */
  lemma {:induction false} BestIsBest<T>(rows: seq<T>, key: T -> string, score: T -> int)
    ensures var kept := Best(rows, key, score);
            DistinctKeys(kept, key) && AllBest(rows, kept, key, score) && Covers(rows, kept, key)
  {
    if rows != [] {
      var before, row := rows[..|rows| - 1], rows[|rows| - 1];
      var kept := Best(before, key, score);
      BestIsBest(before, key, score);
      assert rows == before + [row];
      AbsorbPlaces(kept, row, key, score);
      CoversStep(before, kept, row, key, score);
      AllBestStep(before, kept, row, key, score);
    }
  }

  /** The keys in the order they first appear. */
  ghost function FirstKeys<T>(rows: seq<T>, key: T -> string): seq<string>
  {
    if rows == [] then []
    else
      var before := FirstKeys(rows[..|rows| - 1], key);
      var k := key(rows[|rows| - 1]);
      if k in before then before else before + [k]
  }

  ghost function Keys<T>(rows: seq<T>, key: T -> string): (r: seq<string>)
    ensures |r| == |rows| && forall i | 0 <= i < |rows| :: r[i] == key(rows[i])
  {
    seq(|rows|, i requires 0 <= i < |rows| => key(rows[i]))
  }

  lemma AbsorbKeys<T>(kept: seq<T>, row: T, key: T -> string, score: T -> int)
    requires DistinctKeys(kept, key)
    ensures key(row) in Keys(kept, key) <==> HasKey(kept, key(row), key)
    ensures Keys(Absorb(kept, row, key, score), key)
         == if HasKey(kept, key(row), key) then Keys(kept, key) else Keys(kept, key) + [key(row)]
  {
    AbsorbPlaces(kept, row, key, score);
    var next := Absorb(kept, row, key, score);
    if i :| 0 <= i < |kept| && key(kept[i]) == key(row) {
      assert Keys(kept, key)[i] == key(row);
    }
    assert forall i | 0 <= i < |kept| :: Keys(next, key)[i] == Keys(kept, key)[i];
  }

  /** De-duplication keeps the order in which the keys first appear. */
  lemma {:induction false} BestKeepsOrder<T>(rows: seq<T>, key: T -> string, score: T -> int)
    ensures Keys(Best(rows, key, score), key) == FirstKeys(rows, key)
  {
    if rows != [] {
      var before := rows[..|rows| - 1];
      BestKeepsOrder(before, key, score);
      BestIsBest(before, key, score);
      AbsorbKeys(Best(before, key, score), rows[|rows| - 1], key, score);
    }
  }

  method Find<T>(entries: seq<T>, k: string, key: T -> string) returns (place: nat)
    ensures place == PlaceOf(entries, k, key)
  {
    place := 0;
    while place < |entries| && key(entries[place]) != k
      invariant place <= |entries|
      invariant forall i | 0 <= i < place :: key(entries[i]) != k
    {
      place := place + 1;
    }
  }

  /** The loop over a Map, whose entries stay in the order their keys were first set. */
  method KeepBestOfEach<T>(rows: seq<T>, key: T -> string, score: T -> int) returns (kept: seq<T>)
    ensures kept == Best(rows, key, score)
  {
    kept := [];
    for i := 0 to |rows|
      invariant kept == Best(rows[..i], key, score)
    {
      var row := rows[i];
      assert rows[..i + 1][..i] == rows[..i];
      var place := Find(kept, key(row), key);
      if place == |kept| {
        kept := kept + [row];
      } else if score(row) > score(kept[place]) {
        kept := kept[place := row];
      }
    }
    assert rows[..|rows|] == rows;
  }
}
