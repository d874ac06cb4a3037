/**
 * The few operations of Python's `str` type that the buffer-sizing and
 * pack/unpack checking scripts rely on, over strings as sequences of
 * characters.
 */
module PyStrings {

  /**
   * The characters `str.isspace` and the argument-less `str.strip` treat as
   * whitespace: the ASCII controls 9-13 and 28-31, the space, and the
   * Unicode separators.
   */
  predicate IsSpace(c: char) {
    '\t' <= c <= '\r' || '\U{001C}' <= c <= ' ' || c == '\U{0085}' || c == '\U{00A0}' || c == '\U{1680}' ||
    '\U{2000}' <= c <= '\U{200A}' || c == '\U{2028}' || c == '\U{2029}' || c == '\U{202F}' || c == '\U{205F}' ||
    c == '\U{3000}'
  }

  /** The same characters as a set, for `StripChars`. */
  const Whitespace: set<char> := set c: char | '\t' <= c <= '\U{3000}' && IsSpace(c)

  /** Brackets are not white space. */
  lemma BracketsNotSpace()
    ensures !IsSpace('(') && !IsSpace(')') && !IsSpace('{') && !IsSpace('}')
  { }

  /** `s.startswith(p)`. */
  predicate StartsWith(s: string, p: string) {
    |p| <= |s| && s[..|p|] == p
  }

  /** `t in s`: some position of `s` starts a copy of `t`. */
  predicate Contains(s: string, t: string)
    decreases |s|
  {
    StartsWith(s, t) || (|s| > 0 && Contains(s[1..], t))
  }

  /** A copy of `t` starts at position `i` of `s`. */
  predicate OccursAt(s: string, t: string, i: int) {
    0 <= i <= |s| - |t| && s[i..i + |t|] == t
  }

  /** `Contains` is the substring relation. */
  lemma {:induction false} ContainsAt(s: string, t: string)
    ensures Contains(s, t) <==> exists i :: OccursAt(s, t, i)
    decreases |s|
  {
    if StartsWith(s, t) {
      assert OccursAt(s, t, 0);
    }
    if |s| > 0 {
      ContainsAt(s[1..], t);
      if exists i :: OccursAt(s, t, i) {
        var i :| OccursAt(s, t, i);
        if i > 0 {
          assert s[1..][i - 1..i - 1 + |t|] == t;
          assert OccursAt(s[1..], t, i - 1);
        }
      }
      if Contains(s[1..], t) && !StartsWith(s, t) {
        var i :| OccursAt(s[1..], t, i);
        assert s[i + 1..i + 1 + |t|] == t;
        assert OccursAt(s, t, i + 1);
      }
    } else {
      if exists i :: OccursAt(s, t, i) {
        var i :| OccursAt(s, t, i);
        assert s[..|t|] == t;
      }
    }
  }

  /** Whatever a slice of `s` contains, `s` contains too. */
  lemma SliceContains(s: string, t: string, i: nat, j: nat)
    requires i <= j <= |s|
    ensures Contains(s[i..j], t) ==> Contains(s, t)
  {
    ContainsAt(s, t);
    ContainsAt(s[i..j], t);
    if Contains(s[i..j], t) {
      var x :| OccursAt(s[i..j], t, x);
      forall k | 0 <= k < |t|
        ensures s[i + x + k] == t[k]
      {
        assert t[k] == s[i..j][x + k];
      }
      assert s[i + x..i + x + |t|] == t;
      assert OccursAt(s, t, i + x);
    }
  }

  /** The first position at or after `i` whose character is not in `cs`, or `|s|`. */
  function LeftEnd(s: string, cs: set<char>, i: nat): (k: nat)
    requires i <= |s|
    ensures i <= k <= |s| && (k < |s| ==> s[k] !in cs)
    decreases |s| - i
  {
    if i == |s| || s[i] !in cs then i else LeftEnd(s, cs, i + 1)
  }

  /** Every character `LeftEnd` passes over belongs to `cs`. */
  lemma {:induction false} LeftEndSkips(s: string, cs: set<char>, i: nat)
    requires i <= |s|
    ensures forall k :: i <= k < LeftEnd(s, cs, i) ==> s[k] in cs
    decreases |s| - i
  {
    if i < |s| && s[i] in cs {
      LeftEndSkips(s, cs, i + 1);
    }
  }

  /** The last position at or before `j` that follows a character not in `cs`, or 0. */
  function RightEnd(s: string, cs: set<char>, j: nat): (k: nat)
    requires j <= |s|
    ensures k <= j && (k > 0 ==> s[k - 1] !in cs)
    decreases j
  {
    if j == 0 || s[j - 1] !in cs then j else RightEnd(s, cs, j - 1)
  }

  /** Every character `RightEnd` passes over belongs to `cs`. */
  lemma {:induction false} RightEndSkips(s: string, cs: set<char>, j: nat)
    requires j <= |s|
    ensures forall k :: RightEnd(s, cs, j) <= k < j ==> s[k] in cs
    decreases j
  {
    if j > 0 && s[j - 1] in cs {
      RightEndSkips(s, cs, j - 1);
    }
  }

  /**
   * `s.strip(chars)`: the slice of `s` between its leading and its trailing
   * run of characters in `cs`.
   */
  function StripChars(s: string, cs: set<char>): (r: string)
    ensures |r| <= |s|
    ensures r == [] || (r[0] !in cs && r[|r| - 1] !in cs)
  {
    var i := LeftEnd(s, cs, 0);
    if i == |s| then []
    else
      RightEndSkips(s, cs, |s|);
      s[i..RightEnd(s, cs, |s|)]
  }

  /** What `StripChars` drops at either end all belongs to `cs`, and it drops only that. */
  lemma StripCharsDrops(s: string, cs: set<char>)
    ensures var i := LeftEnd(s, cs, 0);
      var r := StripChars(s, cs);
      && i + |r| <= |s| && r == s[i..i + |r|]
      && (forall k :: 0 <= k < i ==> s[k] in cs)
      && (forall k :: i + |r| <= k < |s| ==> s[k] in cs)
  {
    LeftEndSkips(s, cs, 0);
    RightEndSkips(s, cs, |s|);
  }

  /** `s.strip()`. */
  function Strip(s: string): (r: string)
    ensures |r| <= |s|
    ensures r == [] || (!IsSpace(r[0]) && !IsSpace(r[|r| - 1]))
  {
    StripChars(s, Whitespace)
  }

  /** A string with no character of `cs` at either end strips to itself. */
  lemma StripNothing(s: string, cs: set<char>)
    requires s == [] || (s[0] !in cs && s[|s| - 1] !in cs)
    ensures StripChars(s, cs) == s
  {
    assert LeftEnd(s, cs, 0) == 0 && RightEnd(s, cs, |s|) == |s|;
  }

  /** Stripping twice strips no more than stripping once. */
  lemma StripIdempotent(s: string, cs: set<char>)
    ensures StripChars(StripChars(s, cs), cs) == StripChars(s, cs)
  {
    StripNothing(StripChars(s, cs), cs);
  }

  /**
   * Stripping a string whose last character and character at `keep` are
   * outside `cs` drops only a prefix, and keeps position `keep`.
   */
  lemma StripKeepsEnd(s: string, cs: set<char>, keep: nat)
    requires keep < |s| && s[keep] !in cs && s[|s| - 1] !in cs
    ensures var r := StripChars(s, cs);
      |s| - keep <= |r| <= |s| && r == s[|s| - |r|..]
  {
    LeftEndSkips(s, cs, 0);
    assert RightEnd(s, cs, |s|) == |s|;
  }

  /**
   * Stripping a string whose last character and character at `keep` are
   * not white space keeps position `keep` and the last character.
   */
  lemma StripSpan(s: string, keep: nat)
    requires keep < |s| && !IsSpace(s[keep]) && !IsSpace(s[|s| - 1])
    ensures var r := Strip(s);
      |s| - keep <= |r| <= |s| && r[|r| - 1] == s[|s| - 1]
  {
    StripKeepsEnd(s, Whitespace, keep);
  }

  /** `s.replace(c, "")` for a one-character `c`: every other character, in order. */
  function RemoveChar(s: string, c: char): (r: string)
    ensures |r| <= |s| && c !in r
    ensures forall d :: d != c ==> multiset(r)[d] == multiset(s)[d]
    decreases |s|
  {
    if s == [] then []
    else
      assert s == [s[0]] + s[1..];
      (if s[0] == c then [] else [s[0]]) + RemoveChar(s[1..], c)
  }

  /** Removing a character that does not occur changes nothing. */
  lemma {:induction false} RemoveAbsent(s: string, c: char)
    requires c !in s
    ensures RemoveChar(s, c) == s
    decreases |s|
  {
    if s != [] {
      RemoveAbsent(s[1..], c);
    }
  }

  /**
   * `s.replace(pat, "")` for a nonempty `pat`: occurrences are found and
   * removed left to right, without overlapping.
   */
  function RemoveAll(s: string, pat: string): (r: string)
    requires pat != []
    ensures |r| <= |s|
    decreases |s|
  {
    if s == [] then []
    else if StartsWith(s, pat) then RemoveAll(s[|pat|..], pat)
    else [s[0]] + RemoveAll(s[1..], pat)
  }

  /** A string that does not contain `pat` is left as it is. */
  lemma {:induction false} RemoveAllAbsent(s: string, pat: string)
    requires pat != [] && !Contains(s, pat)
    ensures RemoveAll(s, pat) == s
    decreases |s|
  {
    if s != [] {
      RemoveAllAbsent(s[1..], pat);
    }
  }

  /** Removing a one-character pattern is removing that character. */
  lemma {:induction false} RemoveCharIsRemoveAll(s: string, c: char)
    ensures RemoveChar(s, c) == RemoveAll(s, [c])
    decreases |s|
  {
    if s != [] {
      RemoveCharIsRemoveAll(s[1..], c);
      assert StartsWith(s, [c]) <==> s[0] == c;
    }
  }

  /** `sep.join(parts)`. */
  function Join(parts: seq<string>, sep: string): (r: string)
    decreases |parts|
  {
    if parts == [] then []
    else if |parts| == 1 then parts[0]
    else parts[0] + sep + Join(parts[1..], sep)
  }

  /**
   * `s.split(sep)` for a nonempty `sep`: the pieces between the occurrences
   * of `sep` found left to right; at least one piece.
   */
  function Split(s: string, sep: string): (r: seq<string>)
    requires sep != []
    ensures |r| >= 1
    decreases |s|
  {
    if s == [] then [[]]
    else if StartsWith(s, sep) then [[]] + Split(s[|sep|..], sep)
    else
      var rest := Split(s[1..], sep);
      [[s[0]] + rest[0]] + rest[1..]
  }

  /** Joining the pieces back with the separator gives the string split. */
  lemma {:induction false} SplitJoin(s: string, sep: string)
    requires sep != []
    ensures Join(Split(s, sep), sep) == s
    decreases |s|
  {
    if s == [] {
    } else if StartsWith(s, sep) {
      SplitJoin(s[|sep|..], sep);
      SplitJoinAtSep(s, sep);
    } else {
      SplitJoin(s[1..], sep);
      SplitJoinAtChar(s, sep);
    }
  }

  lemma SplitJoinAtSep(s: string, sep: string)
    requires sep != [] && s != [] && StartsWith(s, sep)
    requires Join(Split(s[|sep|..], sep), sep) == s[|sep|..]
    ensures Join(Split(s, sep), sep) == s
  {
    var rest := s[|sep|..];
    assert Split(s, sep) == [[]] + Split(rest, sep);
    JoinCons([], Split(rest, sep), sep);
    TakeDrop(s, |sep|);
  }

  lemma SplitJoinAtChar(s: string, sep: string)
    requires sep != [] && s != [] && !StartsWith(s, sep)
    requires Join(Split(s[1..], sep), sep) == s[1..]
    ensures Join(Split(s, sep), sep) == s
  {
    JoinConsHead(s[0], Split(s[1..], sep), sep);
    assert s == [s[0]] + s[1..];
  }

  lemma TakeDrop<T>(s: seq<T>, k: int)
    requires 0 <= k <= |s|
    ensures [] + s[..k] + s[k..] == s
  {
  }

  /** Joining a first part in front of at least one more. */
  lemma JoinCons(p: string, parts: seq<string>, sep: string)
    requires |parts| >= 1
    ensures Join([p] + parts, sep) == p + sep + Join(parts, sep)
  {
    assert ([p] + parts)[1..] == parts;
  }

  /** Putting a character in front of the first part puts it in front of the joined string. */
  lemma JoinConsHead(c: char, parts: seq<string>, sep: string)
    requires |parts| >= 1
    ensures Join([[c] + parts[0]] + parts[1..], sep) == [c] + Join(parts, sep)
  {
    if |parts| == 1 {
      assert [[c] + parts[0]] + parts[1..] == [[c] + parts[0]];
    } else {
      JoinCons([c] + parts[0], parts[1..], sep);
      JoinCons(parts[0], parts[1..], sep);
      assert parts == [parts[0]] + parts[1..];
    }
  }

  /** Splitting at a character gives one piece more than there are copies of it. */
  lemma {:induction false} SplitCount(s: string, c: char)
    ensures |Split(s, [c])| == multiset(s)[c] + 1
    decreases |s|
  {
    if s != [] {
      SplitCount(s[1..], c);
      assert s == [s[0]] + s[1..];
      assert StartsWith(s, [c]) <==> s[0] == c by {
        assert s[..1] == [s[0]];
      }
    }
  }

  /** Stripping keeps a slice, so it adds no substring. */
  lemma StripContains(s: string, t: string)
    ensures Contains(Strip(s), t) ==> Contains(s, t)
  {
    StripCharsDrops(s, Whitespace);
    var i := LeftEnd(s, Whitespace, 0);
    SliceContains(s, t, i, i + |Strip(s)|);
  }

  /** No piece of a split contains the separator. */
  lemma {:induction false} SplitPieces(s: string, sep: string)
    requires sep != []
    ensures forall p :: p in Split(s, sep) ==> !Contains(p, sep)
    decreases |s|
  {
    if s == [] {
      assert !StartsWith([], sep);
    } else if StartsWith(s, sep) {
      SplitPieces(s[|sep|..], sep);
      assert !StartsWith([], sep);
    } else {
      var rest := Split(s[1..], sep);
      SplitPieces(s[1..], sep);
      SplitHead(s[1..], sep);
      var p := [s[0]] + rest[0];
      assert p[1..] == rest[0];
      assert !StartsWith(p, sep) by {
        if |sep| <= |p| {
          assert p[..|sep|] == s[..|sep|];
        }
      }
    }
  }

  /** The first piece of a split is a prefix of the string, followed by the separator or the end. */
  lemma {:induction false} SplitHead(s: string, sep: string)
    requires sep != []
    ensures StartsWith(s, Split(s, sep)[0])
    ensures var h := Split(s, sep)[0]; |Split(s, sep)| == 1 ==> h == s
    ensures var h := Split(s, sep)[0]; |Split(s, sep)| > 1 ==> StartsWith(s[|h|..], sep)
    decreases |s|
  {
    if s != [] && !StartsWith(s, sep) {
      var rest := Split(s[1..], sep);
      SplitHead(s[1..], sep);
      assert Split(s, sep)[0] == [s[0]] + rest[0];
      assert |Split(s, sep)| == |rest|;
      ConsPrefix(s, rest[0]);
    }
  }

  /** A prefix of the tail, with the first character put back, is a prefix of the whole. */
  lemma ConsPrefix(s: string, t: string)
    requires s != [] && StartsWith(s[1..], t)
    ensures StartsWith(s, [s[0]] + t) && s[1 + |t|..] == s[1..][|t|..]
    ensures t == s[1..] ==> [s[0]] + t == s
  {
    assert s[..1 + |t|] == [s[0]] + s[1..][..|t|];
  }

  /** `s.split(sep)[-1]`: the text after the last occurrence of `sep`, or all of `s`. */
  function AfterLast(s: string, sep: string): (r: string)
    requires sep != []
    ensures !Contains(r, sep)
  {
    var parts := Split(s, sep);
    SplitPieces(s, sep);
    assert parts[|parts| - 1] in parts;
    parts[|parts| - 1]
  }

  /** Without the separator, the text after its last occurrence is the whole string. */
  lemma {:induction false} AfterLastAbsent(s: string, sep: string)
    requires sep != [] && !Contains(s, sep)
    ensures Split(s, sep) == [s] && AfterLast(s, sep) == s
    decreases |s|
  {
    if s != [] {
      AfterLastAbsent(s[1..], sep);
      assert s == [s[0]] + s[1..];
    }
  }

  /**
   * The text after the last separator is a suffix of the string: all of it
   * when the separator does not occur, otherwise the suffix that a copy of
   * the separator immediately precedes.
   */
  lemma SuffixAfterLast(s: string, sep: string)
    requires sep != []
    ensures var r := AfterLast(s, sep);
            && |r| <= |s| && r == s[|s| - |r|..]
            && (!Contains(s, sep) ==> r == s)
            && (Contains(s, sep) ==> |r| + |sep| <= |s| && s[|s| - |r| - |sep|..|s| - |r|] == sep)
  {
    var parts := Split(s, sep);
    var r := AfterLast(s, sep);
    AfterLastIsLast(s, sep);
    if !Contains(s, sep) {
      AfterLastAbsent(s, sep);
      assert s[|s| - |r|..] == s;
    } else {
      SplitJoin(s, sep);
      LastPart(s, sep, parts);
    }
  }

  /** When `s` holds the separator, the last of the parts that join to `s` follows a copy of it. */
  lemma LastPart(s: string, sep: string, parts: seq<string>)
    requires |parts| >= 1 && Join(parts, sep) == s && Contains(s, sep)
    requires !Contains(parts[|parts| - 1], sep)
    ensures var r := parts[|parts| - 1];
            |r| + |sep| <= |s| && s[|s| - |r| - |sep|..|s| - |r|] == sep && r == s[|s| - |r|..]
  {
    JoinLast(parts, sep);
    if |parts| == 1 {
      assert false;
    }
  }

  /** `AfterLast` is the last piece of the split. */
  lemma AfterLastIsLast(s: string, sep: string)
    requires sep != []
    ensures |Split(s, sep)| >= 1 && AfterLast(s, sep) == Split(s, sep)[|Split(s, sep)| - 1]
  {
  }

  /** The last part is a suffix of the joined string, preceded by the separator when there are several parts. */
  lemma {:induction false} JoinLast(parts: seq<string>, sep: string)
    requires |parts| >= 1
    ensures var j := Join(parts, sep);
            var l := parts[|parts| - 1];
            && |l| <= |j| && j[|j| - |l|..] == l
            && (|parts| == 1 ==> j == l)
            && (|parts| > 1 ==> |l| + |sep| <= |j| && j[|j| - |l| - |sep|..|j| - |l|] == sep)
  {
    var n := |parts|;
    if n > 1 {
      var init := parts[..n - 1];
      assert parts == init + [parts[n - 1]];
      JoinSnoc(init, parts[n - 1], sep);
      TailPieces(Join(init, sep), sep, parts[n - 1]);
    }
  }

  /** In `a + b + c`, `c` is the tail and `b` sits right before it. */
  lemma TailPieces(a: string, b: string, c: string)
    ensures var j := a + b + c;
            |j| - |c| - |b| == |a| && j[|j| - |c|..] == c && j[|j| - |c| - |b|..|j| - |c|] == b
  {
  }

  /** Joining one more part at the back. */
  lemma {:induction false} JoinSnoc(parts: seq<string>, p: string, sep: string)
    ensures Join(parts + [p], sep) == if parts == [] then p else Join(parts, sep) + sep + p
    decreases |parts|
  {
    if parts != [] {
      assert (parts + [p])[1..] == parts[1..] + [p];
      JoinSnoc(parts[1..], p, sep);
    }
  }
}
