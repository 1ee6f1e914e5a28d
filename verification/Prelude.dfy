/** Small vocabulary shared by every module. */
module Prelude {
  datatype Option<+T> = None | Some(value: T) {
    predicate IsFailure() {
      None?
    }

    function PropagateFailure<U>(): Option<U>
      requires None?
    {
      None
    }

    function Extract(): T
      requires Some?
    {
      value
    }
  }

  /** Row identifiers. The random UUIDs of the source are numbers never handed out before. */
  type Id = nat

  /** Character-wise image of a string, used for case folding. */
  function MapChars(f: char -> char, s: string): (r: string)
    ensures |r| == |s|
    ensures forall i | 0 <= i < |s| :: r[i] == f(s[i])
  {
    seq(|s|, i requires 0 <= i < |s| => f(s[i]))
  }

  lemma MapCharsConcat(f: char -> char, a: string, b: string)
    ensures MapChars(f, a + b) == MapChars(f, a) + MapChars(f, b)
  {
  }

  /** Two texts that begin alike are alike, or one begins the other, when their rests do. */
  lemma MapCharsTail(f: char -> char, a: string, b: string)
    requires a != "" && b != "" && f(a[0]) == f(b[0])
    ensures MapChars(f, a) <= MapChars(f, b) <==> MapChars(f, a[1..]) <= MapChars(f, b[1..])
    ensures MapChars(f, a) == MapChars(f, b) <==> MapChars(f, a[1..]) == MapChars(f, b[1..])
  {
    assert MapChars(f, a) == [f(a[0])] + MapChars(f, a[1..]);
    assert MapChars(f, b) == [f(b[0])] + MapChars(f, b[1..]);
  }

  /** The lower case of an ASCII letter. */
  function AsciiFold(c: char): char {
    if 'A' <= c <= 'Z' then (c as int + 32) as char else c
  }

  function Fold(s: string): string {
    MapChars(AsciiFold, s)
  }

  /** String.replace with a global character class: every character of `special` gains a backslash. */
  function Escape(v: string, special: set<char>): string
  {
    if v == "" then ""
    else (if v[0] in special then ['\\', v[0]] else [v[0]]) + Escape(v[1..], special)
  }

  lemma {:induction false} EscapeNothing(v: string, special: set<char>)
    requires forall c | c in v :: c !in special
    ensures Escape(v, special) == v
  {
    if v != "" {
      assert v[0] in v;
      EscapeNothing(v[1..], special);
    }
  }

  predicate Contains(text: string, v: string) {
    exists k | 0 <= k <= |text| :: v <= text[k..]
  }

  lemma PieceIsContained(before: string, piece: string, after: string, v: string)
    requires Contains(piece, v)
    ensures Contains(before + (piece + after), v)
  {
    var k :| 0 <= k <= |piece| && v <= piece[k..];
    assert (before + (piece + after))[|before| + k..] == piece[k..] + after;
  }

  predicate StartsWith(text: string, v: string) {
    v <= text
  }

  predicate EndsWith(text: string, v: string) {
    |v| <= |text| && text[|text| - |v|..] == v
  }

  predicate Distinct<T(==)>(s: seq<T>) {
    forall i, j | 0 <= i < j < |s| :: s[i] != s[j]
  }

  /** String.lastIndexOf of one character. */
  function LastIndexOf(s: string, c: char): (k: int)
    ensures -1 <= k < |s|
    ensures k >= 0 ==> s[k] == c
    ensures forall i | k < i < |s| :: s[i] != c
  {
    if s == "" then -1
    else if s[|s| - 1] == c then |s| - 1
    else LastIndexOf(s[..|s| - 1], c)
  }

  lemma LastIndexIsUnique(s: string, c: char, k: int)
    requires -1 <= k < |s| && (k >= 0 ==> s[k] == c) && forall i | k < i < |s| :: s[i] != c
    ensures LastIndexOf(s, c) == k
  {
  }

  function SetOf<T(==)>(ids: seq<T>): set<T> {
    set id | id in ids
  }

  lemma {:induction false} SetSize<T>(ids: seq<T>)
    ensures |SetOf(ids)| <= |ids|
    ensures |SetOf(ids)| == |ids| <==> Distinct(ids)
  {
    if ids != [] {
      var init, last := ids[..|ids| - 1], ids[|ids| - 1];
      SetSize(init);
      DistinctLast(init, last);
      assert ids == init + [last];
      if last in init {
        assert SetOf(ids) == SetOf(init);
      } else {
        assert SetOf(ids) == SetOf(init) + {last};
      }
    }
  }

  lemma DistinctLast<T>(init: seq<T>, last: T)
    ensures Distinct(init + [last]) <==> Distinct(init) && last !in init
  {
    var ids := init + [last];
    if Distinct(ids) {
      forall i, j | 0 <= i < j < |init|
        ensures init[i] != init[j]
      {
        assert ids[i] != ids[j];
      }
      forall i | 0 <= i < |init|
        ensures init[i] != last
      {
        assert ids[i] != ids[|init|];
      }
    }
  }

  lemma SubsetIsSmaller<T>(a: set<T>, b: set<T>)
    requires a <= b
    ensures |a| <= |b|
  {
    assert b == a + (b - a);
  }

  lemma SubsetOfSameSize<T>(a: set<T>, b: set<T>)
    requires a <= b && |a| == |b|
    ensures a == b
  {
    var rest := b - a;
    assert b == a + rest;
    assert |a + rest| == |a| + |rest|;
    assert rest == {};
  }

  lemma SameElementsSameLength<T>(a: seq<T>, b: seq<T>)
    requires Distinct(a) && Distinct(b) && forall id :: id in a <==> id in b
    ensures |a| == |b|
  {
    SetSize(a);
    SetSize(b);
    assert SetOf(a) == SetOf(b);
  }

  lemma SameShortSequence<T>(a: seq<T>, b: seq<T>)
    requires |a| <= 1 && |b| <= 1
    requires forall x :: x in a <==> x in b
    ensures a == b
  {
    if |a| == 1 {
      assert a[0] in a;
    }
    if |b| == 1 {
      assert b[0] in b;
    }
  }

  lemma ConcatAssociates<T>(a: seq<T>, b: seq<T>, c: seq<T>)
    ensures (a + b) + c == a + (b + c)
  {
  }
}
