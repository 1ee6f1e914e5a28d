/** Folder paths and the subtree statements of src/folders/folder.repository.ts. */
module Folders {
  import opened Prelude
  import opened Wildcard
  import opened Projection

  // ----- The subtree clause -----

  /** The WHERE clause: the folder itself, or LIKE the unescaped path followed by the delimiter and `%`. */
  predicate InSubtree(folder: string, path: string, delimiter: char) {
    folder == path || LIKE.Matches((path + [delimiter]) + [LIKE.many], folder)
  }

  /** What the clause is for: the folder or anything below it. */
  predicate Under(folder: string, path: string, delimiter: char) {
    folder == path || StartsWith(folder, path + [delimiter])
  }

  /** The pattern ends in a backslash that is not itself escaped. */
  predicate Dangling(p: string) {
    p != "" && if p[0] == '\\' then |p| == 1 || Dangling(p[2..]) else Dangling(p[1..])
  }

  /** A trailing wildcard lets anything follow a match. */
  lemma {:induction false} TrailingMany(w: Wildcards, p: string, t: string, more: string)
    requires w.Valid() && !Dangling(p) && w.Matches(p + [w.many], t)
    ensures w.Matches(p + [w.many], t + more)
    decreases |p| + |t|
  {
    var q := p + [w.many];
    if p == "" {
      assert q == [w.many];
      ManyMatchesAll(w, t + more);
    } else {
      assert q[0] == p[0] && q[1..] == p[1..] + [w.many];
      if t != "" {
        assert (t + more)[0] == t[0] && (t + more)[1..] == t[1..] + more;
      }
      if p[0] == w.many {
        if w.Matches(q[1..], t) {
          TrailingMany(w, p[1..], t, more);
        } else {
          TrailingMany(w, p, t[1..], more);
        }
      } else if p[0] == '\\' {
        assert q[2..] == p[2..] + [w.many];
        TrailingMany(w, p[2..], t[1..], more);
      } else {
        TrailingMany(w, p[1..], t[1..], more);
      }
    }
  }

  /** A dangling backslash turns the wildcard after it into a literal last character. */
  lemma {:induction false} EscapedManyIsLast(w: Wildcards, p: string, t: string)
    requires w.Valid() && Dangling(p) && w.Matches(p + [w.many], t)
    ensures t != "" && t[|t| - 1] == w.many
    decreases |p| + |t|
  {
    var q := p + [w.many];
    assert q[0] == p[0] && q[1..] == p[1..] + [w.many];
    if p[0] == w.many {
      if w.Matches(q[1..], t) {
        EscapedManyIsLast(w, p[1..], t);
      } else {
        EscapedManyIsLast(w, p, t[1..]);
      }
    } else if p[0] == '\\' {
      if |p| == 1 {
        assert q[2..] == "";
      } else {
        assert q[2..] == p[2..] + [w.many];
        EscapedManyIsLast(w, p[2..], t[1..]);
      }
    } else {
      EscapedManyIsLast(w, p[1..], t[1..]);
    }
  }

  /** A prefix pattern that is not plain goes wrong on some text longer than the prefix less one. */
  lemma WrongLongText(w: Wildcards, v: string) returns (t: string)
    requires w.Valid() && !w.Plain(v)
    ensures |t| >= |v|
    ensures w.Matches(v + [w.many], t) != StartsWith(t, v)
  {
    if Dangling(v) {
      t := v + [Other(w.many)];
      if w.Matches(v + [w.many], t) {
        EscapedManyIsLast(w, v, t);
      }
    } else {
      var least := Least(w, v + [w.many]);
      LeastIsNoExtension(w, v);
      var c := if |least| < |v| then Other(v[|least|]) else w.many;
      var more := seq(|v| - |least|, i => c);
      t := least + more;
      TrailingMany(w, v, least, more);
      if |least| < |v| {
        assert t[|least|] == c;
      } else {
        assert t == least;
      }
    }
  }

  function Other(c: char): (r: char)
    ensures r != c
  {
    if c == 'a' then 'b' else 'a'
  }

  /** The clause selects exactly the subtree, for every folder, just when path and delimiter are plain. */
  lemma SubtreeExactness(path: string, delimiter: char)
    ensures (forall folder: string :: InSubtree(folder, path, delimiter) <==> Under(folder, path, delimiter))
       <==> LIKE.Plain(path + [delimiter])
  {
    var v := path + [delimiter];
    PrefixPatternExactness(LIKE, v);
    if LIKE.Plain(v) {
      assert ExactPrefix(LIKE, v);
    } else {
      var t := WrongLongText(LIKE, v);
      assert InSubtree(t, path, delimiter) != Under(t, path, delimiter);
    }
  }

  // ----- Renaming and deleting rows -----

  /** SQL substring from a position, which may lie past the end. */
  function Tail(s: string, n: nat): string {
    if n <= |s| then s[n..] else ""
  }

  function RenamedRow(row: Row, mailbox: Id, path: string, target: string, delimiter: char): Row {
    if row.mailbox == mailbox && InSubtree(row.folder, path, delimiter)
    then row.(folder := target + Tail(row.folder, |path|))
    else row
  }

  function RenameSubtree(t: Table, mailbox: Id, path: string, target: string, delimiter: char): Table {
    map id | id in t :: RenamedRow(t[id], mailbox, path, target, delimiter)
  }

  function DeleteSubtree(t: Table, mailbox: Id, path: string, delimiter: char): Table {
    map id | id in t && !(t[id].mailbox == mailbox && InSubtree(t[id].folder, path, delimiter)) :: t[id]
  }

  /** What the rename statement does to a row, whatever the path: a row of the mailbox that the clause selects has the
      path cut off its folder, or the whole folder when that is shorter, and the target put before it. */
  lemma RenamedExactly(t: Table, id: Id, mailbox: Id, path: string, target: string, delimiter: char)
    requires id in t
    ensures var t', folder := RenameSubtree(t, mailbox, path, target, delimiter), t[id].folder;
            && t'.Keys == t.Keys
            && t'[id] == if t[id].mailbox == mailbox && (folder == path || LIKE.Matches(path + ([delimiter] + "%"), folder))
                         then t[id].(folder := if |folder| < |path| then target else target + folder[|path|..])
                         else t[id]
  {
    assert path + ([delimiter] + "%") == (path + [delimiter]) + [LIKE.many];
    assert target + "" == target;
  }

  /** Any row of the mailbox at the target or below it already belongs to the subtree being renamed. */
  ghost predicate NothingElseUnder(t: Table, mailbox: Id, path: string, target: string, delimiter: char) {
    forall id | id in t && t[id].mailbox == mailbox && Under(t[id].folder, target, delimiter) ::
      Under(t[id].folder, path, delimiter)
  }

  ghost predicate NothingUnder(t: Table, mailbox: Id, target: string, delimiter: char) {
    forall id | id in t && t[id].mailbox == mailbox :: !Under(t[id].folder, target, delimiter)
  }

  /** With a plain path the subtree moves with its suffixes and everything else stays. */
  lemma RenameMovesSubtree(t: Table, mailbox: Id, path: string, target: string, delimiter: char)
    requires LIKE.Plain(path + [delimiter])
    ensures var t' := RenameSubtree(t, mailbox, path, target, delimiter);
            t'.Keys == t.Keys
            && forall id | id in t ::
                 if t[id].mailbox == mailbox && Under(t[id].folder, path, delimiter)
                 then exists suffix :: && t[id].folder == path + suffix
                                       && (suffix == "" || suffix[0] == delimiter)
                                       && t'[id] == t[id].(folder := target + suffix)
                 else t'[id] == t[id]
  {
    SubtreeExactness(path, delimiter);
    var t' := RenameSubtree(t, mailbox, path, target, delimiter);
    forall id | id in t && t[id].mailbox == mailbox && Under(t[id].folder, path, delimiter)
      ensures exists suffix :: && t[id].folder == path + suffix
                               && (suffix == "" || suffix[0] == delimiter)
                               && t'[id] == t[id].(folder := target + suffix)
    {
      var folder := t[id].folder;
      var suffix := folder[|path|..];
      assert folder == path + suffix;
      assert t'[id] == t[id].(folder := target + suffix);
    }
  }

  lemma DeleteRemovesSubtree(t: Table, mailbox: Id, path: string, delimiter: char)
    requires LIKE.Plain(path + [delimiter])
    ensures var t' := DeleteSubtree(t, mailbox, path, delimiter);
            && (forall id :: id in t' <==> id in t && !(t[id].mailbox == mailbox && Under(t[id].folder, path, delimiter)))
            && forall id | id in t' :: t'[id] == t[id]
  {
    SubtreeExactness(path, delimiter);
  }

  /** The unique index survives a rename when nothing else lay under the target. */
  lemma RenameKeepsKeysUnique(t: Table, mailbox: Id, path: string, target: string, delimiter: char)
    requires LIKE.Plain(path + [delimiter])
    requires UniqueKeys(t) && NothingElseUnder(t, mailbox, path, target, delimiter)
    ensures UniqueKeys(RenameSubtree(t, mailbox, path, target, delimiter))
  {
    var t' := RenameSubtree(t, mailbox, path, target, delimiter);
    SubtreeExactness(path, delimiter);
    forall i, j | i in t' && j in t' && KeyOf(t'[i]) == KeyOf(t'[j])
      ensures i == j
    {
      if Moves(t[i], mailbox, path, delimiter) {
        MovedKeyStaysApart(t, i, j, mailbox, path, target, delimiter);
      } else if Moves(t[j], mailbox, path, delimiter) {
        MovedKeyStaysApart(t, j, i, mailbox, path, target, delimiter);
      }
    }
  }

  ghost predicate Moves(row: Row, mailbox: Id, path: string, delimiter: char) {
    row.mailbox == mailbox && Under(row.folder, path, delimiter)
  }

  /** A row that moved shares its key with no row that had another key before. */
  lemma MovedKeyStaysApart(t: Table, i: Id, j: Id, mailbox: Id, path: string, target: string, delimiter: char)
    requires LIKE.Plain(path + [delimiter])
    requires i in t && j in t && NothingElseUnder(t, mailbox, path, target, delimiter)
    requires Moves(t[i], mailbox, path, delimiter)
    requires KeyOf(RenamedRow(t[i], mailbox, path, target, delimiter)) == KeyOf(RenamedRow(t[j], mailbox, path, target, delimiter))
    ensures KeyOf(t[i]) == KeyOf(t[j])
  {
    SubtreeExactness(path, delimiter);
    var a, b := t[i].folder, t[j].folder;
    assert a == path + a[|path|..];
    assert Under(target + a[|path|..], target, delimiter);
    assert Moves(t[j], mailbox, path, delimiter);
    assert b == path + b[|path|..];
    SameSuffix(target, a[|path|..], b[|path|..]);
  }

  lemma SameSuffix(p: string, a: string, b: string)
    requires p + a == p + b
    ensures a == b
  {
    assert (p + a)[|p|..] == a && (p + b)[|p|..] == b;
  }

  /** Renaming there and back restores the table when nothing lay under the target. */
  lemma RenameBack(t: Table, mailbox: Id, path: string, target: string, delimiter: char)
    requires LIKE.Plain(path + [delimiter]) && LIKE.Plain(target + [delimiter])
    requires NothingUnder(t, mailbox, target, delimiter)
    ensures RenameSubtree(RenameSubtree(t, mailbox, path, target, delimiter), mailbox, target, path, delimiter) == t
  {
    var t1 := RenameSubtree(t, mailbox, path, target, delimiter);
    var t2 := RenameSubtree(t1, mailbox, target, path, delimiter);
    SubtreeExactness(path, delimiter);
    SubtreeExactness(target, delimiter);
    forall id | id in t
      ensures t2[id] == t[id]
    {
      var row := t[id];
      if row.mailbox == mailbox && Under(row.folder, path, delimiter) {
        var suffix := row.folder[|path|..];
        assert row.folder == path + suffix;
        assert (target + suffix)[|target|..] == suffix;
        assert Under(t1[id].folder, target, delimiter);
      }
    }
  }

  /** An underscore in the path takes a sibling folder along. */
  lemma UnderscoreTakesSibling(sibling: string, path: string)
    requires sibling == "ab/x" && path == "a_"
    ensures !Under(sibling, path, '/') && InSubtree(sibling, path, '/')
  {
    var p := (path + ['/']) + [LIKE.many];
    ManyMatchesAll(LIKE, sibling[3..]);
    assert p[3..] == [LIKE.many];
    assert LIKE.Matches(p[2..], sibling[2..]) by {
      assert p[2..][1..] == p[3..] && sibling[2..][1..] == sibling[3..];
    }
    assert LIKE.Matches(p[1..], sibling[1..]) by {
      assert p[1..][1..] == p[2..] && sibling[1..][1..] == sibling[2..];
    }
  }

  /** The rows of the mailbox at a path or below it. */
  ghost function RowsUnder(t: Table, mailbox: Id, path: string, delimiter: char): set<Id> {
    set id | id in t && Moves(t[id], mailbox, path, delimiter)
  }

  /** The statement run against the table; the unique index refuses a rename that would break it. With a plain path
      exactly the subtree's rows go below the target, and nothing else there means no refusal. */
  method RenameRows(store: MessageStore, mailbox: Id, path: string, target: string, delimiter: char) returns (ok: bool)
    requires store.Valid()
    modifies store`rows
    ensures store.Valid()
    ensures var renamed := RenameSubtree(old(store.rows), mailbox, path, target, delimiter);
            ok == UniqueKeys(renamed) && store.rows == if ok then renamed else old(store.rows)
    ensures LIKE.Plain(path + [delimiter]) && NothingElseUnder(old(store.rows), mailbox, path, target, delimiter) ==> ok
    ensures ok && LIKE.Plain(path + [delimiter]) ==>
              forall id | id in old(store.rows) ::
                if id in RowsUnder(old(store.rows), mailbox, path, delimiter)
                then id in store.rows && Moves(store.rows[id], mailbox, target, delimiter)
                else id in store.rows && store.rows[id] == old(store.rows)[id]
  {
    ghost var before := store.rows;
    var renamed := RenameSubtree(store.rows, mailbox, path, target, delimiter);
    ok := UniqueKeys(renamed);
    if ok {
      store.rows := renamed;
    }
    if LIKE.Plain(path + [delimiter]) {
      RenamedRowsLieUnderTarget(before, mailbox, path, target, delimiter);
      if NothingElseUnder(before, mailbox, path, target, delimiter) {
        RenameKeepsKeysUnique(before, mailbox, path, target, delimiter);
      }
    }
  }

  lemma RenamedRowsLieUnderTarget(t: Table, mailbox: Id, path: string, target: string, delimiter: char)
    requires LIKE.Plain(path + [delimiter])
    ensures forall id | id in t ::
              var row := RenamedRow(t[id], mailbox, path, target, delimiter);
              if Moves(t[id], mailbox, path, delimiter) then Moves(row, mailbox, target, delimiter) else row == t[id]
  {
    SubtreeExactness(path, delimiter);
    forall id | id in t && Moves(t[id], mailbox, path, delimiter)
      ensures Moves(RenamedRow(t[id], mailbox, path, target, delimiter), mailbox, target, delimiter)
    {
      var suffix := t[id].folder[|path|..];
      assert t[id].folder == path + suffix;
      assert Under(target + suffix, target, delimiter);
    }
  }

  /** No row of the folder itself is left, and with a plain path exactly the subtree's rows are gone. */
  method DeleteRows(store: MessageStore, mailbox: Id, path: string, delimiter: char)
    requires store.Valid()
    modifies store`rows
    ensures store.Valid()
    ensures store.rows == DeleteSubtree(old(store.rows), mailbox, path, delimiter)
    ensures forall id | id in store.rows :: !store.rows[id].In(mailbox, path)
    ensures LIKE.Plain(path + [delimiter]) ==>
              store.rows == old(store.rows) - RowsUnder(old(store.rows), mailbox, path, delimiter)
  {
    ghost var before := store.rows;
    store.rows := DeleteSubtree(store.rows, mailbox, path, delimiter);
    if LIKE.Plain(path + [delimiter]) {
      DeleteRemovesSubtree(before, mailbox, path, delimiter);
    }
  }

  // ----- Splitting and building paths -----

  /** The parent shown by list. */
  function Parent(path: string, delimiter: char): Option<string> {
    var cut := LastIndexOf(path, delimiter);
    if cut == -1 then None else Some(path[..cut])
  }

  /** The name shown by list. */
  function Name(path: string, delimiter: char): string {
    var cut := LastIndexOf(path, delimiter);
    if cut == -1 then path else path[cut + 1..]
  }

  /** The path create asks the server for, and the target of a rename. */
  function PathIn(parent: Option<string>, name: string, delimiter: char): string {
    if parent.None? then name else (parent.value + [delimiter]) + name
  }

  /** What list shows for a path put together from a parent and a name is that parent and that
      name just when the name is free of the delimiter. */
  lemma PathShowsItsParts(parent: Option<string>, name: string, delimiter: char)
    ensures var path := PathIn(parent, name, delimiter);
            Parent(path, delimiter) == parent && Name(path, delimiter) == name <==> delimiter !in name
  {
    var path := PathIn(parent, name, delimiter);
    var before := if parent.None? then -1 else |parent.value|;
    assert path[before + 1..] == name;
    assert forall i | 0 <= i < |name| :: path[before + 1 + i] == name[i];
    if delimiter !in name {
      assert parent.Some? ==> path[before] == delimiter && path[..before] == parent.value;
      forall k | before < k < |path|
        ensures path[k] != delimiter
      {
        assert path[k] == name[k - before - 1];
      }
      LastIndexIsUnique(path, delimiter, before);
    } else {
      var i :| 0 <= i < |name| && name[i] == delimiter;
      assert path[before + 1 + i] == delimiter;
      assert |Name(path, delimiter)| < |name|;
    }
  }

  /** Every path is its parent and its name put together. */
  lemma PathIsItsParts(path: string, delimiter: char)
    ensures PathIn(Parent(path, delimiter), Name(path, delimiter), delimiter) == path
    ensures delimiter !in Name(path, delimiter)
  {
    var cut := LastIndexOf(path, delimiter);
    if cut != -1 {
      assert path == (path[..cut] + [path[cut]]) + path[cut + 1..];
    }
  }

  function RenameTarget(path: string, name: string, delimiter: char): string {
    PathIn(Parent(path, delimiter), name, delimiter)
  }

  /** After a rename, list shows the same parent and the new name just when the name is free of the
      delimiter; and only the name already shown renames a folder to itself. */
  lemma RenameShowsNewName(path: string, name: string, delimiter: char)
    ensures var target := RenameTarget(path, name, delimiter);
            && (Parent(target, delimiter) == Parent(path, delimiter) && Name(target, delimiter) == name <==> delimiter !in name)
            && (target == path <==> name == Name(path, delimiter))
  {
    PathShowsItsParts(Parent(path, delimiter), name, delimiter);
    PathIsItsParts(path, delimiter);
    var parent := Parent(path, delimiter);
    if parent.Some? && RenameTarget(path, name, delimiter) == path {
      SameSuffix(parent.value + [delimiter], name, Name(path, delimiter));
    }
  }
}
