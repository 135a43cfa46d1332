/**
 * The pieces of java.lang.String and of the project's StringUtil that the
 * gateway relies on: blank tests, `split` with a literal separator, and the
 * natural (`compareTo`) order used by `Collections.sort`.
 */
module Strings {

  /** Characters that StringUtil.isBlank is taken to treat as blank, those of
      Character.isWhitespace: the space, line and paragraph separators other
      than the non-breaking ones, and U+0009-U+000D, U+001C-U+001F. */
  predicate IsWhitespace(c: char) {
    || ('\U{0009}' <= c <= '\U{000D}') || ('\U{001C}' <= c <= '\U{001F}')
    || c == ' ' || c == '\U{1680}' || ('\U{2000}' <= c <= '\U{2006}') || ('\U{2008}' <= c <= '\U{200A}')
    || c == '\U{2028}' || c == '\U{2029}' || c == '\U{205F}' || c == '\U{3000}'
  }

  /** StringUtil.isBlank on a non-null string: empty or whitespace only. */
  predicate IsBlank(s: string) {
    forall i :: 0 <= i < |s| ==> IsWhitespace(s[i])
  }

  /** Blank means every character is whitespace; the empty string is blank,
      and a blank string stays blank when whitespace is added. */
  lemma BlankFacts(s: string, c: char)
    ensures IsBlank(s) <==> forall x :: x in s ==> IsWhitespace(x)
    ensures IsBlank("")
    ensures IsBlank(s) && IsWhitespace(c) ==> IsBlank(s + [c]) && IsBlank([c] + s)
  {
    if IsBlank(s) && IsWhitespace(c) {
      assert forall i :: 0 <= i < |s| ==> (s + [c])[i] == s[i];
      assert forall i :: 1 <= i <= |s| ==> ([c] + s)[i] == s[i - 1];
    }
  }

  predicate StartsWith(s: string, prefix: string) {
    |prefix| <= |s| && s[..|prefix|] == prefix
  }

  /** No occurrence of `sep` starts at any of the first `n` positions of `s`. */
  predicate NoMatchBefore(s: string, n: nat, sep: string)
    requires n <= |s|
  {
    forall i :: 0 <= i < n ==> !StartsWith(s[i..], sep)
  }

  /** The parts joined back with the separator between them. */
  function Join(parts: seq<string>, sep: string): string
    requires |parts| >= 1
  {
    if |parts| == 1 then parts[0] else parts[0] + sep + Join(parts[1..], sep)
  }

  /** All pieces between leftmost, non-overlapping occurrences of `sep`,
      empty pieces included (Java's `split(sep, -1)`). */
  function SplitAll(s: string, sep: string): (parts: seq<string>)
    requires sep != ""
    ensures |parts| >= 1
    ensures Join(parts, sep) == s
    decreases |s|
  {
    if |s| < |sep| then [s]
    else if s[..|sep|] == sep then
      var rest := SplitAll(s[|sep|..], sep);
      assert s == s[..|sep|] + s[|sep|..];
      JoinEmptyFirst(rest, sep);
      [""] + rest
    else
      var rest := SplitAll(s[1..], sep);
      assert s == [s[0]] + s[1..];
      JoinCharFirst(s[0], rest, sep);
      [[s[0]] + rest[0]] + rest[1..]
  }

  lemma JoinEmptyFirst(rest: seq<string>, sep: string)
    requires |rest| >= 1
    ensures Join([""] + rest, sep) == sep + Join(rest, sep)
  {
    assert ([""] + rest)[1..] == rest;
  }

  lemma JoinCharFirst(c: char, rest: seq<string>, sep: string)
    requires |rest| >= 1
    ensures Join([[c] + rest[0]] + rest[1..], sep) == [c] + Join(rest, sep)
  {
    var parts := [[c] + rest[0]] + rest[1..];
    if |rest| > 1 {
      assert parts[1..] == rest[1..];
    }
  }

  function DropTrailingEmpty(parts: seq<string>): (r: seq<string>)
    ensures |r| <= |parts| && r == parts[..|r|]
    ensures r != [] ==> r[|r| - 1] != ""
    ensures forall i :: |r| <= i < |parts| ==> parts[i] == ""
  {
    if parts != [] && parts[|parts| - 1] == "" then DropTrailingEmpty(parts[..|parts| - 1]) else parts
  }

  /** Java's `s.split(sep)` for a separator without regular-expression
      metacharacters: the whole string when `sep` does not occur, otherwise
      every piece with the trailing empty ones removed. */
  function Split(s: string, sep: string): seq<string>
    requires sep != ""
  {
    var all := SplitAll(s, sep);
    if |all| == 1 then all else DropTrailingEmpty(all)
  }

  /** `split` keeps a prefix of all pieces, dropping only empty ones and
      only after a separator occurred; a string without the separator is
      its own single piece. */
  lemma SplitFacts(s: string, sep: string)
    requires sep != ""
    ensures var r, all := Split(s, sep), SplitAll(s, sep);
      && |r| <= |all| && r == all[..|r|]
      && (forall i :: |r| <= i < |all| ==> all[i] == "")
      && (|all| > 1 && r != [] ==> r[|r| - 1] != "")
      && (NoMatchBefore(s, |s|, sep) ==> r == [s])
  {
    if NoMatchBefore(s, |s|, sep) {
      SplitAllNoMatch(s, sep);
    }
  }

  lemma {:induction false} SplitAllNoMatch(s: string, sep: string)
    requires sep != ""
    requires NoMatchBefore(s, |s|, sep)
    ensures SplitAll(s, sep) == [s]
    decreases |s|
  {
    if |s| >= |sep| {
      assert s[0..] == s;
      assert !StartsWith(s[0..], sep);
      forall i | 0 <= i < |s[1..]| ensures !StartsWith(s[1..][i..], sep) {
        assert s[1..][i..] == s[i + 1..];
      }
      SplitAllNoMatch(s[1..], sep);
    }
  }

  /** When the first occurrence of `sep` follows exactly `x`, the first piece is `x`. */
  lemma {:induction false} SplitAllAfter(x: string, sep: string, rest: string)
    requires sep != ""
    requires NoMatchBefore(x + sep + rest, |x|, sep)
    ensures SplitAll(x + sep + rest, sep) == [x] + SplitAll(rest, sep)
    decreases |x|
  {
    var s := x + sep + rest;
    if x == [] {
      assert s[..|sep|] == sep && s[|sep|..] == rest;
    } else {
      assert s[0..] == s;
      assert !StartsWith(s[0..], sep);
      var s' := x[1..] + sep + rest;
      assert s[1..] == s';
      forall i | 0 <= i < |x[1..]| ensures !StartsWith(s'[i..], sep) {
        assert s'[i..] == s[i + 1..];
      }
      SplitAllAfter(x[1..], sep, rest);
      assert [x[0]] + x[1..] == x;
    }
  }

  lemma SplitAllSep(sep: string, rest: string)
    requires sep != ""
    ensures SplitAll(sep + rest, sep) == [""] + SplitAll(rest, sep)
  {
    assert (sep + rest)[..|sep|] == sep && (sep + rest)[|sep|..] == rest;
  }

  /** One character that does not begin a separator joins the first piece. */
  lemma SplitAllChar(c: char, rest: string, sep: string)
    requires sep != ""
    requires !StartsWith([c] + rest, sep)
    ensures SplitAll([c] + rest, sep)
         == [[c] + SplitAll(rest, sep)[0]] + SplitAll(rest, sep)[1..]
  {
    assert ([c] + rest)[1..] == rest;
  }

  // ---------------------------------------------------------------------
  // String order, as String.compareTo

  /** `a` is not after `b` in lexicographic order (a proper prefix comes first). */
  predicate NotAfter(a: string, b: string) {
    |a| == 0 || (|b| > 0 && (a[0] < b[0] || (a[0] == b[0] && NotAfter(a[1..], b[1..]))))
  }

  lemma NotAfterReflexive(a: string) ensures NotAfter(a, a) {}

  lemma NotAfterTotal(a: string, b: string) ensures NotAfter(a, b) || NotAfter(b, a) {}

  lemma NotAfterTransitive(a: string, b: string, c: string)
    requires NotAfter(a, b) && NotAfter(b, c)
    ensures NotAfter(a, c)
  {}

  lemma NotAfterAntisymmetric()
    ensures forall a, b :: NotAfter(a, b) && NotAfter(b, a) ==> a == b
  {
    forall a: string, b: string | NotAfter(a, b) && NotAfter(b, a) ensures a == b {
      NotAfterAntisymmetricAt(a, b);
    }
  }

  lemma NotAfterAntisymmetricAt(a: string, b: string)
    requires NotAfter(a, b) && NotAfter(b, a)
    ensures a == b
  {}

  lemma {:induction false} MinimumExists(s: set<string>) returns (m: string)
    requires s != {}
    ensures m in s && forall x :: x in s ==> NotAfter(m, x)
    decreases |s|
  {
    var y :| y in s;
    if s == {y} {
      m := y;
      NotAfterReflexive(y);
    } else {
      var m' := MinimumExists(s - {y});
      NotAfterTotal(y, m');
      if NotAfter(y, m') {
        m := y;
        forall x | x in s ensures NotAfter(m, x) {
          if x == y { NotAfterReflexive(y); } else { NotAfterTransitive(y, m', x); }
        }
      } else {
        m := m';
      }
    }
  }

  /** The least string of a non-empty set. */
  function Least(s: set<string>): (m: string)
    requires s != {}
    ensures m in s && forall x :: x in s ==> NotAfter(m, x)
  {
    assert exists m :: m in s && forall x :: x in s ==> NotAfter(m, x) by {
      var w := MinimumExists(s);
    }
    NotAfterAntisymmetric();
    var m :| m in s && forall x :: x in s ==> NotAfter(m, x);
    m
  }

  predicate StrictlyAscending(keys: seq<string>) {
    forall i, j {:trigger NotAfter(keys[i], keys[j])} :: 0 <= i < j < |keys| ==> keys[i] != keys[j] && NotAfter(keys[i], keys[j])
  }

  /** The keys of a set listed as Collections.sort orders them. */
  function SortedKeys(s: set<string>): (keys: seq<string>)
    ensures |keys| == |s|
    ensures forall k :: k in keys <==> k in s
    ensures StrictlyAscending(keys)
    decreases |s|
  {
    if s == {} then []
    else
      var m := Least(s);
      AscendingCons(m, SortedKeys(s - {m}));
      [m] + SortedKeys(s - {m})
  }

  /** A key before every key of an ascending list, and not among them, starts
      a longer ascending list. */
  lemma AscendingCons(m: string, rest: seq<string>)
    requires StrictlyAscending(rest)
    requires forall k :: k in rest ==> k != m && NotAfter(m, k)
    ensures StrictlyAscending([m] + rest)
  {
    var r := [m] + rest;
    forall i, j | 0 <= i < j < |r| ensures r[i] != r[j] && NotAfter(r[i], r[j]) {
      assert r[j] == rest[j - 1] && rest[j - 1] in rest;
      if i > 0 {
        assert r[i] == rest[i - 1] && NotAfter(rest[i - 1], rest[j - 1]);
      }
    }
  }

  /** Sorting a key set has only one possible outcome. */
  lemma {:induction false} SortedKeysUnique(s: set<string>, keys: seq<string>)
    requires forall k :: k in keys <==> k in s
    requires StrictlyAscending(keys)
    ensures keys == SortedKeys(s)
    decreases |s|
  {
    if s != {} {
      LeastIsFirst(s, keys);
      AscendingTail(s, keys);
      SortedKeysUnique(s - {keys[0]}, keys[1..]);
      SortedKeysOfNonEmpty(s, keys);
    } else if keys != [] {
      HeadIsElement(keys);
      assert false;
    }
  }

  lemma SortedKeysOfNonEmpty(s: set<string>, keys: seq<string>)
    requires s != {} && keys != [] && keys[0] == Least(s)
    requires keys[1..] == SortedKeys(s - {keys[0]})
    ensures keys == SortedKeys(s)
  {
    assert keys == [keys[0]] + keys[1..];
  }

  lemma HeadIsElement(keys: seq<string>)
    requires keys != []
    ensures keys[0] in keys
  {}

  lemma LeastIsFirst(s: set<string>, keys: seq<string>)
    requires s != {}
    requires forall k :: k in keys <==> k in s
    requires StrictlyAscending(keys)
    ensures keys != [] && keys[0] == Least(s)
  {
    var m := Least(s);
    assert keys != [] by { assert m in keys; }
    assert m in keys;
    var i :| 0 <= i < |keys| && keys[i] == m;
    if i > 0 {
      assert NotAfter(keys[0], m) && NotAfter(m, keys[0]);
      NotAfterAntisymmetricAt(keys[0], m);
    }
  }

  lemma AscendingTail(s: set<string>, keys: seq<string>)
    requires keys != []
    requires forall k :: k in keys <==> k in s
    requires StrictlyAscending(keys)
    ensures forall k :: k in keys[1..] <==> k in s - {keys[0]}
    ensures StrictlyAscending(keys[1..])
  {
    var tail := keys[1..];
    forall k ensures k in tail <==> k in s - {keys[0]} {
      if k in s - {keys[0]} {
        var j :| 0 <= j < |keys| && keys[j] == k;
        assert tail[j - 1] == k;
      }
      if k in tail {
        var j :| 0 <= j < |tail| && tail[j] == k;
        assert keys[j + 1] == k && NotAfter(keys[0], keys[j + 1]);
      }
    }
    forall i, j | 0 <= i < j < |tail| ensures tail[i] != tail[j] && NotAfter(tail[i], tail[j]) {
      assert NotAfter(keys[i + 1], keys[j + 1]);
    }
  }
}
