/**
 * The one pattern language behind both Sieve `:matches` (RFC 5228, section 2.7.1) and SQL LIKE:
 * `many` stands for any run of characters, `one` for exactly one, and a backslash takes the next
 * character literally. Only the two wildcard characters differ between the two.
 */
module Wildcard {
  import opened Prelude

  datatype Wildcards = Wildcards(many: char, one: char) {
    ghost predicate Valid() {
      many != one && many != '\\' && one != '\\'
    }

    predicate Special(c: char) {
      c == many || c == one || c == '\\'
    }

    /** The value contains nothing the pattern language could read as its own. */
    predicate Plain(v: string) {
      forall c | c in v :: !Special(c)
    }

    /** As Plain, but a lone backslash at the very end is harmless: nothing follows it to escape. */
    predicate PlainBeforeEnd(v: string) {
      v == "" || (Plain(v[..|v| - 1]) && v[|v| - 1] != many && v[|v| - 1] != one)
    }

    /** A backslash with nothing after it is left undefined by both standards; it stands for itself here. */
    predicate Matches(p: string, s: string)
      decreases |p| + |s|
    {
      if p == "" then s == ""
      else if p[0] == many then Matches(p[1..], s) || (s != "" && Matches(p, s[1..]))
      else if p[0] == '\\' && |p| > 1 then s != "" && s[0] == p[1] && Matches(p[2..], s[1..])
      else s != "" && (p[0] == one || p[0] == s[0]) && Matches(p[1..], s[1..])
    }
  }

  /** Sieve `:matches`. */
  const GLOB := Wildcards('*', '?')

  /** SQL LIKE with its default escape character. */
  const LIKE := Wildcards('%', '_')

  /** An escaped value matches exactly itself, whatever pattern follows. */
  lemma {:induction false} EscapedPrefix(w: Wildcards, v: string, p: string, s: string)
    requires w.Valid()
    ensures var e := Escape(v, {w.many, w.one, '\\'});
            w.Matches(e + p, s) <==> v <= s && w.Matches(p, s[|v|..])
  {
    var special := {w.many, w.one, '\\'};
    if v == "" {
      assert Escape(v, special) + p == p;
    } else {
      var e := Escape(v[1..], special);
      if v[0] in special {
        assert Escape(v, special) + p == ['\\', v[0]] + (e + p);
      } else {
        assert Escape(v, special) + p == [v[0]] + (e + p);
      }
      if s != "" {
        EscapedPrefix(w, v[1..], p, s[1..]);
        if s[0] == v[0] && v[1..] <= s[1..] {
          assert v <= s;
          assert s[1..][|v[1..]|..] == s[|v|..];
        }
      }
    }
  }

  /** A plain value needs no escaping to be matched literally. */
  lemma PlainPrefix(w: Wildcards, v: string, p: string, s: string)
    requires w.Valid() && w.Plain(v)
    ensures w.Matches(v + p, s) <==> v <= s && w.Matches(p, s[|v|..])
  {
    EscapeNothing(v, {w.many, w.one, '\\'});
    EscapedPrefix(w, v, p, s);
  }

  lemma {:induction false} ManyMatchesAll(w: Wildcards, s: string)
    requires w.Valid()
    ensures w.Matches([w.many], s)
  {
    if s != "" {
      ManyMatchesAll(w, s[1..]);
    }
  }

  /** A leading `many` lets the rest of the pattern start anywhere. */
  lemma {:induction false} ManyHead(w: Wildcards, p: string, s: string)
    requires w.Valid()
    ensures w.Matches([w.many] + p, s) <==> exists k | 0 <= k <= |s| :: w.Matches(p, s[k..])
  {
    assert ([w.many] + p)[1..] == p;
    assert s[0..] == s;
    if s != "" {
      ManyHead(w, p, s[1..]);
      forall k | 0 <= k < |s|
        ensures s[1..][k..] == s[k + 1..]
      {
      }
      if k :| 0 <= k <= |s| && w.Matches(p, s[k..]) {
        if k > 0 {
          assert s[1..][k - 1..] == s[k..];
        }
      }
    }
  }

  /** The shortest text a pattern accepts, with every `one` filled by a character other than `one`. */
  function Least(w: Wildcards, p: string): string
  {
    if p == "" then ""
    else if p[0] == w.many then Least(w, p[1..])
    else if p[0] == '\\' && |p| > 1 then [p[1]] + Least(w, p[2..])
    else if p[0] == w.one then [Filler(w)] + Least(w, p[1..])
    else [p[0]] + Least(w, p[1..])
  }

  function Filler(w: Wildcards): char {
    if w.one == 'a' then 'b' else 'a'
  }

  lemma {:induction false} LeastMatches(w: Wildcards, p: string)
    requires w.Valid()
    ensures w.Matches(p, Least(w, p)) && |Least(w, p)| <= |p|
  {
    if p != "" {
      if p[0] == '\\' && |p| > 1 {
        LeastMatches(w, p[2..]);
      } else {
        LeastMatches(w, p[1..]);
      }
    }
  }

  // ----- Folding letters -----

  /** A folding that leaves the special characters alone and maps nothing else onto them. */
  ghost predicate Respects(w: Wildcards, f: char -> char) {
    forall c :: if w.Special(c) then f(c) == c else !w.Special(f(c))
  }

  /** What a pattern accepts it still accepts once both are folded. */
  lemma {:induction false} FoldMatches(w: Wildcards, f: char -> char, p: string, s: string)
    requires w.Valid() && Respects(w, f) && w.Matches(p, s)
    ensures w.Matches(MapChars(f, p), MapChars(f, s))
    decreases |p| + |s|
  {
    if p != "" {
      var p', s' := MapChars(f, p), MapChars(f, s);
      assert w.Special(w.many) && w.Special(w.one) && w.Special('\\');
      assert p'[1..] == MapChars(f, p[1..]);
      if p[0] == w.many && w.Matches(p[1..], s) {
        FoldMatches(w, f, p[1..], s);
      } else {
        assert s'[1..] == MapChars(f, s[1..]);
        if p[0] == w.many {
          FoldMatches(w, f, p, s[1..]);
        } else if p[0] == '\\' && |p| > 1 {
          assert p'[2..] == MapChars(f, p[2..]);
          FoldMatches(w, f, p[2..], s[1..]);
        } else {
          FoldMatches(w, f, p[1..], s[1..]);
        }
      }
    }
  }

  /** The shortest match of a value that is not plain, as a prefix pattern: shorter than the value, or its first
      character is special where the text's is not, or the rest is of this kind. */
  lemma LeastOfInexact(w: Wildcards, v: string)
    requires w.Valid() && !w.Plain(v)
    ensures var t := Least(w, v + [w.many]);
            || |t| < |v|
            || (v[0] == '\\' && t[0] == w.many)
            || (v[0] == w.one && t[0] == Filler(w))
            || (t[0] == v[0] && t[1..] == Least(w, v[1..] + [w.many]) && !w.Plain(v[1..]))
  {
    var p := v + [w.many];
    assert p[0] == v[0] && p[1..] == v[1..] + [w.many];
    assert v == [v[0]] + v[1..];
    if v[0] == w.many {
      LeastShort(w, v[1..]);
    } else if v == "\\" {
      assert p[2..] == "";
    } else if v[0] == '\\' {
      assert p[2..] == v[2..] + [w.many];
      LeastShort(w, v[2..]);
    }
  }

  /** So that text does not start with the value, under any folding. */
  lemma {:induction false} LeastMissesPrefix(w: Wildcards, f: char -> char, v: string)
    requires w.Valid() && Respects(w, f) && !w.Plain(v)
    ensures !StartsWith(MapChars(f, Least(w, v + [w.many])), MapChars(f, v))
  {
    var t := Least(w, v + [w.many]);
    LeastOfInexact(w, v);
    if |t| >= |v| {
      assert MapChars(f, t)[0] == f(t[0]) && MapChars(f, v)[0] == f(v[0]);
      if (v[0] == '\\' && t[0] == w.many) || (v[0] == w.one && t[0] == Filler(w)) {
        assert w.Special('\\') && w.Special(w.many) && w.Special(w.one);
        assert f(Filler(w)) != w.one;
      } else {
        LeastMissesPrefix(w, f, v[1..]);
        MapCharsTail(f, v, t);
      }
    }
  }

  lemma LeastIsNoExtension(w: Wildcards, v: string)
    requires w.Valid() && !w.Plain(v)
    ensures var t := Least(w, v + [w.many]); w.Matches(v + [w.many], t) && !StartsWith(t, v) && |t| <= |v|
  {
    var t := Least(w, v + [w.many]);
    LeastMatches(w, v + [w.many]);
    LeastShort(w, v);
    LeastMissesPrefix(w, c => c, v);
    assert MapChars(c => c, t) == t && MapChars(c => c, v) == v;
  }

  lemma {:induction false} LeastShort(w: Wildcards, v: string)
    requires w.Valid()
    ensures |Least(w, v + [w.many])| <= |v|
  {
    var p := v + [w.many];
    if v == "" {
      assert p[1..] == "";
    } else {
      assert p[1..] == v[1..] + [w.many];
      if v[0] == '\\' && |v| > 1 {
        assert p[2..] == v[2..] + [w.many];
        LeastShort(w, v[2..]);
      } else if v[0] == '\\' {
        assert p[2..] == "";
      } else {
        LeastShort(w, v[1..]);
      }
    }
  }

  /** A pattern whose shortest match is itself, up to folding, has no active wildcard or escape. */
  lemma {:induction false} LeastIsSelf(w: Wildcards, f: char -> char, v: string)
    requires w.Valid() && Respects(w, f) && MapChars(f, Least(w, v)) == MapChars(f, v)
    ensures w.PlainBeforeEnd(v)
  {
    if v != "" {
      var t := Least(w, v);
      LeastOfHead(w, v);
      if v[0] == w.one {
        assert MapChars(f, t)[0] == f(Filler(w)) && MapChars(f, v)[0] == f(w.one);
        assert w.Special(w.one);
        assert false;
      } else {
        MapCharsTail(f, v, t);
        LeastIsSelf(w, f, v[1..]);
        if |v| > 1 {
          assert v[..|v| - 1] == [v[0]] + v[1..][..|v| - 2];
        }
      }
    }
  }

  lemma LeastOfHead(w: Wildcards, v: string)
    requires w.Valid() && v != ""
    ensures var t := Least(w, v);
            || |t| < |v|
            || (v[0] == w.one && t[0] == Filler(w))
            || (v[0] != w.many && (v[0] == '\\' ==> |v| == 1) && t[0] == v[0] && t[1..] == Least(w, v[1..]))
  {
    LeastMatches(w, v[1..]);
    if v[0] == '\\' && |v| > 1 {
      LeastMatches(w, v[2..]);
    }
  }

  ghost predicate ExactPrefix(w: Wildcards, v: string) {
    forall s: string :: w.Matches(v + [w.many], s) <==> StartsWith(s, v)
  }

  ghost predicate ExactSuffix(w: Wildcards, v: string) {
    forall s: string :: w.Matches([w.many] + v, s) <==> EndsWith(s, v)
  }

  /** `v` followed by `many` accepts exactly the texts starting with `v` just when `v` is plain. */
  lemma PrefixPatternExactness(w: Wildcards, v: string)
    requires w.Valid()
    ensures ExactPrefix(w, v) <==> w.Plain(v)
  {
    if w.Plain(v) {
      forall s: string
        ensures w.Matches(v + [w.many], s) <==> StartsWith(s, v)
      {
        PlainPrefix(w, v, [w.many], s);
        if v <= s {
          ManyMatchesAll(w, s[|v|..]);
        }
      }
    } else {
      LeastIsNoExtension(w, v);
      assert w.Matches(v + [w.many], Least(w, v + [w.many])) && !StartsWith(Least(w, v + [w.many]), v);
    }
  }

  /** A pattern that is plain before its end accepts only itself. */
  lemma PlainBeforeEndMatches(w: Wildcards, v: string, s: string)
    requires w.Valid() && w.PlainBeforeEnd(v)
    ensures w.Matches(v, s) <==> s == v
  {
    if v != "" {
      var u, last := v[..|v| - 1], v[|v| - 1..];
      assert v == u + last;
      PlainPrefix(w, u, last, s);
      if u <= s {
        var rest := s[|u|..];
        assert s == u + rest;
        assert w.Matches(last, rest) <==> rest == last by {
          assert rest != "" ==> rest == [rest[0]] + rest[1..];
        }
      }
    }
  }

  /** `many` followed by `v` accepts exactly the texts ending with `v` just when `v` is plain before its end. */
  lemma SuffixPatternExactness(w: Wildcards, v: string)
    requires w.Valid()
    ensures ExactSuffix(w, v) <==> w.PlainBeforeEnd(v)
  {
    if w.PlainBeforeEnd(v) {
      forall s: string
        ensures w.Matches([w.many] + v, s) <==> EndsWith(s, v)
      {
        ManyHead(w, v, s);
        forall k | 0 <= k <= |s|
          ensures w.Matches(v, s[k..]) <==> s[k..] == v
        {
          PlainBeforeEndMatches(w, v, s[k..]);
        }
        if EndsWith(s, v) {
          assert w.Matches(v, s[|s| - |v|..]);
        }
      }
    } else {
      var t := Least(w, v);
      LeastMatches(w, v);
      ManyHead(w, v, t);
      assert t[0..] == t;
      assert w.Matches([w.many] + v, t);
      if EndsWith(t, v) {
        assert t == v;
        LeastIsSelf(w, c => c, v);
      }
      assert !EndsWith(t, v);
    }
  }

  /** The anchored forms of an escaped value mean exactly what their names say. */
  lemma EscapedPatterns(w: Wildcards, v: string, s: string)
    requires w.Valid()
    ensures var e := Escape(v, {w.many, w.one, '\\'});
            && (w.Matches(e, s) <==> s == v)
            && (w.Matches(e + [w.many], s) <==> StartsWith(s, v))
            && (w.Matches([w.many] + e, s) <==> EndsWith(s, v))
            && (w.Matches([w.many] + (e + [w.many]), s) <==> Contains(s, v))
  {
    EscapedWhole(w, v, s);
    EscapedStart(w, v, s);
    EscapedEnd(w, v, s);
    EscapedMiddle(w, v, s);
  }

  lemma EscapedStart(w: Wildcards, v: string, s: string)
    requires w.Valid()
    ensures w.Matches(Escape(v, {w.many, w.one, '\\'}) + [w.many], s) <==> v <= s
  {
    EscapedPrefix(w, v, [w.many], s);
    if v <= s {
      ManyMatchesAll(w, s[|v|..]);
    }
  }

  lemma EscapedEnd(w: Wildcards, v: string, s: string)
    requires w.Valid()
    ensures w.Matches([w.many] + Escape(v, {w.many, w.one, '\\'}), s) <==> EndsWith(s, v)
  {
    var e := Escape(v, {w.many, w.one, '\\'});
    ManyHead(w, e, s);
    forall k | 0 <= k <= |s|
      ensures w.Matches(e, s[k..]) <==> s[k..] == v
    {
      EscapedWhole(w, v, s[k..]);
    }
    if EndsWith(s, v) {
      assert w.Matches(e, s[|s| - |v|..]);
    }
  }

  lemma EscapedMiddle(w: Wildcards, v: string, s: string)
    requires w.Valid()
    ensures w.Matches([w.many] + (Escape(v, {w.many, w.one, '\\'}) + [w.many]), s) <==> Contains(s, v)
  {
    var p := Escape(v, {w.many, w.one, '\\'}) + [w.many];
    ManyHead(w, p, s);
    forall k | 0 <= k <= |s|
      ensures w.Matches(p, s[k..]) <==> v <= s[k..]
    {
      EscapedStart(w, v, s[k..]);
    }
  }

  lemma EscapedWhole(w: Wildcards, v: string, s: string)
    requires w.Valid()
    ensures w.Matches(Escape(v, {w.many, w.one, '\\'}), s) <==> s == v
  {
    var e := Escape(v, {w.many, w.one, '\\'});
    EscapedPrefix(w, v, "", s);
    assert e + "" == e;
    if v <= s {
      assert s == v + s[|v|..];
    }
  }

  /** Folding commutes with escaping. */
  lemma {:induction false} FoldEscape(w: Wildcards, f: char -> char, v: string)
    requires Respects(w, f)
    ensures var special := {w.many, w.one, '\\'};
            MapChars(f, Escape(v, special)) == Escape(MapChars(f, v), special)
  {
    var special := {w.many, w.one, '\\'};
    if v != "" {
      FoldEscape(w, f, v[1..]);
      var head := if v[0] in special then ['\\', v[0]] else [v[0]];
      MapCharsConcat(f, head, Escape(v[1..], special));
      assert MapChars(f, v)[1..] == MapChars(f, v[1..]);
      assert w.Special(v[0]) <==> v[0] in special;
      assert f('\\') == '\\' by { assert w.Special('\\'); }
    }
  }
}
