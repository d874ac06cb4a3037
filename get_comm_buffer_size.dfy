/**
 * Model of py_progs/GetCommBufferSize.py: the scanners that find the
 * functions of a C file and the tally of the dimensions of its `MPI_Pack`
 * calls, from which the size of a communication buffer is written out.
 * Reading files, printing and the table library are not modelled; the
 * scanners take the text itself.
 */
module GetCommBufferSize {
  import opened Wrappers
  import opened PyStrings

  predicate IsQuote(c: char) {
    c == '"' || c == '\''
  }

  /**
   * Where scanning resumes after a string or character literal whose body
   * starts at `j`: just past the closing `quote`, a backslash skipping the
   * character after it, or the end of the text.
   */
  function LiteralEnd(code: string, j: nat, quote: char): (e: nat)
    requires j <= |code|
    ensures j <= e <= |code|
    decreases |code| - j
  {
    if j == |code| then j
    else if code[j] == '\\' then (if j + 1 < |code| then LiteralEnd(code, j + 2, quote) else |code|)
    else if code[j] == quote then j + 1
    else LiteralEnd(code, j + 1, quote)
  }

  /** The first newline at or after `j`, or the end of the text. */
  function LineEnd(code: string, j: nat): (k: nat)
    requires j <= |code|
    ensures j <= k <= |code| && (k < |code| ==> code[k] == '\n')
    ensures forall m :: j <= m < k ==> code[m] != '\n'
    decreases |code| - j
  {
    if j == |code| || code[j] == '\n' then j else LineEnd(code, j + 1)
  }

  /** A `*` followed by a `/` at position `m`. */
  predicate CloseAt(code: string, m: int) {
    0 <= m && m + 1 < |code| && code[m] == '*' && code[m + 1] == '/'
  }

  /**
   * Where the scan of a block comment whose body starts at `j` stops: at the
   * first `*` followed by `/`, or, when there is none, at the last character
   * of the text (or at `j` if that is further on).
   */
  function BlockEnd(code: string, j: nat): (k: nat)
    requires j <= |code|
    ensures j <= k <= |code| && (k > j ==> k < |code|)
    ensures k + 1 < |code| ==> CloseAt(code, k)
    ensures forall m :: j <= m < k ==> !CloseAt(code, m)
    decreases |code| - j
  {
    if j + 1 >= |code| then j
    else if code[j] == '*' && code[j + 1] == '/' then j
    else BlockEnd(code, j + 1)
  }

  /** The newlines of `s`, in order. */
  function Newlines(s: string): (r: string)
    ensures |r| <= |s|
    decreases |s|
  {
    if s == [] then []
    else Newlines(s[..|s| - 1]) + (if s[|s| - 1] == '\n' then ['\n'] else [])
  }

  lemma NewlinesSnoc(code: string, a: nat, b: nat)
    requires a <= b < |code|
    ensures Newlines(code[a..b + 1]) == Newlines(code[a..b]) + (if code[b] == '\n' then ['\n'] else [])
  {
    var t := code[a..b + 1];
    assert t[..|t| - 1] == code[a..b];
  }

  /**
   * What `remove_comments_preserve_strings` (lines 53-94) emits for the text
   * from position `i` on: literals copied as they are, a `//` comment
   * replaced by the newline that ends it, a `/* */` comment by the newlines
   * inside it, and every other character copied.
   */
  function Scan(code: string, i: nat): string
    requires i <= |code|
    decreases |code| - i
  {
    if i == |code| then []
    else
      var (emitted, next) := Step(code, i);
      emitted + Scan(code, next)
  }

  /**
   * One pass of the outer loop of `remove_comments_preserve_strings`: what
   * it emits for the construct starting at `i`, and where it resumes.
   */
  function Step(code: string, i: nat): (r: (string, nat))
    requires i < |code|
    ensures i < r.1 <= |code|
  {
    var c := code[i];
    if IsQuote(c) then
      var e := LiteralEnd(code, i + 1, c);
      (code[i..e], e)
    else if c == '/' && i + 1 < |code| && code[i + 1] == '/' then
      var k := LineEnd(code, i + 2);
      if k < |code| then (['\n'], k + 1) else ([], k)
    else if c == '/' && i + 1 < |code| && code[i + 1] == '*' then
      var k := BlockEnd(code, i + 2);
      (Newlines(code[i + 2..k]), if k + 1 < |code| then k + 2 else k)
    else
      ([c], i + 1)
  }

  /** Each step emits no more than it consumes, and keeps every newline it consumes. */
  lemma StepKeepsLines(code: string, i: nat)
    requires i < |code|
    ensures var (emitted, next) := Step(code, i);
      |emitted| <= next - i && multiset(emitted)['\n'] == multiset(code[i..next])['\n']
  {
    var c := code[i];
    if IsQuote(c) {
    } else if c == '/' && i + 1 < |code| && code[i + 1] == '/' {
      LineCommentKeepsLines(code, i);
    } else if c == '/' && i + 1 < |code| && code[i + 1] == '*' {
      var k := BlockEnd(code, i + 2);
      NewlinesKept(code[i + 2..k]);
      BlockCommentKeepsLines(code, i, k, Step(code, i).1);
    } else {
      assert code[i..i + 1] == [c];
    }
  }

  lemma LineCommentKeepsLines(code: string, i: nat)
    requires i + 1 < |code| && code[i] == '/' && code[i + 1] == '/'
    ensures var k := LineEnd(code, i + 2);
      var next := if k < |code| then k + 1 else k;
      multiset(if k < |code| then ['\n'] else [])['\n'] == multiset(code[i..next])['\n']
  {
    var k := LineEnd(code, i + 2);
    NoNewline(code, i, k);
    if k < |code| {
      assert code[i..k + 1] == code[i..k] + [code[k]];
    }
  }

  lemma BlockCommentKeepsLines(code: string, i: nat, k: nat, next: nat)
    requires i + 1 < |code| && code[i] == '/' && code[i + 1] == '*'
    requires k == BlockEnd(code, i + 2) && next == if k + 1 < |code| then k + 2 else k
    ensures multiset(code[i..next])['\n'] == multiset(code[i + 2..k])['\n']
  {
    NoNewline(code, i, i + 2);
    if k + 1 < |code| {
      NoNewline(code, k, k + 2);
      ThreeParts(code, i, i + 2, k, k + 2);
    } else {
      ThreeParts(code, i, i + 2, k, k);
    }
  }

  lemma ThreeParts(code: string, a: nat, b: nat, c: nat, d: nat)
    requires a <= b <= c <= d <= |code|
    ensures multiset(code[a..d]) == multiset(code[a..b]) + multiset(code[b..c]) + multiset(code[c..d])
  {
    assert code[a..d] == code[a..b] + code[b..c] + code[c..d];
  }

  /** Comment removal never makes the text longer. */
  lemma {:induction false} ScanShorter(code: string, i: nat)
    requires i <= |code|
    ensures |Scan(code, i)| <= |code| - i
    decreases |code| - i
  {
    if i < |code| {
      StepKeepsLines(code, i);
      ScanShorter(code, Step(code, i).1);
    }
  }

  /**
   * Comment removal keeps every newline, so a line of the output is the same
   * line of the input.
   */
  lemma {:induction false} ScanKeepsLines(code: string, i: nat)
    requires i <= |code|
    ensures multiset(Scan(code, i))['\n'] == multiset(code[i..])['\n']
    decreases |code| - i
  {
    if i < |code| {
      var step := Step(code, i);
      var next := step.1;
      StepKeepsLines(code, i);
      ScanKeepsLines(code, next);
      CountsJoin(code, i, next, step.0, Scan(code, next));
    }
  }

  /** Newlines kept on `code[i..next]` and on `code[next..]` are kept on `code[i..]`. */
  lemma CountsJoin(code: string, i: nat, next: nat, a: string, b: string)
    requires i <= next <= |code|
    requires multiset(a)['\n'] == multiset(code[i..next])['\n'] && multiset(b)['\n'] == multiset(code[next..])['\n']
    ensures multiset(a + b)['\n'] == multiset(code[i..])['\n']
  {
    assert code[i..] == code[i..next] + code[next..];
  }

  /** `Newlines` keeps every newline and nothing else. */
  lemma {:induction false} NewlinesKept(s: string)
    ensures multiset(Newlines(s))['\n'] == multiset(s)['\n']
    ensures forall k :: 0 <= k < |Newlines(s)| ==> Newlines(s)[k] == '\n'
    decreases |s|
  {
    if s != [] {
      var front, c := s[..|s| - 1], s[|s| - 1];
      var tail: string := if c == '\n' then ['\n'] else [];
      NewlinesKept(front);
      assert s == front + [c];
      NewlinesStep(front, c, Newlines(front), tail);
    }
  }

  /** Reading one more character keeps the newlines counted and kept so far. */
  lemma NewlinesStep(front: string, c: char, kept: string, tail: string)
    requires tail == if c == '\n' then ['\n'] else []
    requires multiset(kept)['\n'] == multiset(front)['\n']
    requires forall k :: 0 <= k < |kept| ==> kept[k] == '\n'
    ensures multiset(kept + tail)['\n'] == multiset(front + [c])['\n']
    ensures forall k :: 0 <= k < |kept + tail| ==> (kept + tail)[k] == '\n'
  {
    assert multiset(front + [c]) == multiset(front) + multiset{c};
    assert multiset(kept + tail) == multiset(kept) + multiset(tail);
  }

  lemma NoNewline(code: string, a: nat, b: nat)
    requires a <= b <= |code| && forall m :: a <= m < b ==> code[m] != '\n'
    ensures multiset(code[a..b])['\n'] == 0
  {
    assert '\n' !in code[a..b];
  }

  /** Text with no slash in it comes back unchanged, string literals included. */
  lemma {:induction false} ScanNoSlash(code: string, i: nat)
    requires i <= |code|
    requires forall m :: i <= m < |code| ==> code[m] != '/'
    ensures Scan(code, i) == code[i..]
    decreases |code| - i
  {
    if i < |code| {
      var next := Step(code, i).1;
      ScanNoSlash(code, next);
      assert code[i..] == code[i..next] + code[next..];
    }
  }

  /** A `//` comment is replaced by the newline that ends it. */
  lemma LineCommentDropped(code: string, i: nat, k: nat)
    requires i + 2 <= k < |code| && code[i] == '/' && code[i + 1] == '/'
    requires code[k] == '\n' && forall m :: i + 2 <= m < k ==> code[m] != '\n'
    ensures Scan(code, i) == "\n" + Scan(code, k + 1)
  {
    LineEndAt(code, i + 2, k);
    assert Step(code, i) == (['\n'], k + 1);
  }

  /** The scan of a line comment stops at the first newline. */
  lemma {:induction false} LineEndAt(code: string, j: nat, k: nat)
    requires j <= k < |code| && code[k] == '\n'
    requires forall m :: j <= m < k ==> code[m] != '\n'
    ensures LineEnd(code, j) == k
    decreases k - j
  {
    if j < k {
      LineEndAt(code, j + 1, k);
    }
  }

  /** A `//` comment on the last line is dropped with the rest of the text. */
  lemma LastLineCommentDropped(code: string, i: nat)
    requires i + 1 < |code| && code[i] == '/' && code[i + 1] == '/'
    requires forall m :: i + 2 <= m < |code| ==> code[m] != '\n'
    ensures Scan(code, i) == []
  {
    assert LineEnd(code, i + 2) == |code|;
  }

  /** A `/* */` comment is replaced by the newlines inside it. */
  lemma BlockCommentDropped(code: string, i: nat, k: nat)
    requires i + 2 <= k && k + 1 < |code| && code[i] == '/' && code[i + 1] == '*'
    requires CloseAt(code, k)
    requires forall m :: i + 2 <= m < k ==> !CloseAt(code, m)
    ensures Scan(code, i) == Newlines(code[i + 2..k]) + Scan(code, k + 2)
  {
    BlockEndAt(code, i + 2, k);
    assert Step(code, i) == (Newlines(code[i + 2..k]), k + 2);
  }

  /** The scan of a block comment stops at the first star followed by a slash. */
  lemma {:induction false} BlockEndAt(code: string, j: nat, k: nat)
    requires j <= k && CloseAt(code, k)
    requires forall m :: j <= m < k ==> !CloseAt(code, m)
    ensures BlockEnd(code, j) == k
    decreases k - j
  {
    if j < k {
      assert !CloseAt(code, j);
      BlockEndAt(code, j + 1, k);
    }
  }

  /**
   * A block comment that is never closed: it is dropped up to the last
   * character of the text, which is kept.
   */
  lemma UnterminatedComment(code: string, i: nat)
    requires i + 2 < |code| && code[i] == '/' && code[i + 1] == '*'
    requires forall m :: i + 2 <= m < |code| - 1 ==> !CloseAt(code, m)
    ensures Scan(code, i) == Newlines(code[i + 2..|code| - 1]) + [code[|code| - 1]]
  {
    var n := |code|;
    assert BlockEnd(code, i + 2) == n - 1;
    assert Scan(code, i) == Newlines(code[i + 2..n - 1]) + Scan(code, n - 1);
    assert code[n - 1..n] == [code[n - 1]];
    assert Step(code, n - 1) == ([code[n - 1]], n);
    assert Scan(code, n - 1) == [code[n - 1]] + Scan(code, n);
  }

  /** `remove_comments_preserve_strings` (lines 53-94). */
  method RemoveComments(code: string) returns (out: string)
    ensures out == Scan(code, 0)
  {
    out := [];
    var i := 0;
    var n := |code|;
    while i < n
      invariant 0 <= i <= n + 1
      invariant i <= n ==> out + Scan(code, i) == Scan(code, 0)
      invariant i > n ==> out == Scan(code, 0)
      decreases n - i
    {
      var emitted, next := ScanStep(code, i);
      if next <= n {
        assert (out + emitted) + Scan(code, next) == out + Scan(code, i);
      }
      out, i := out + emitted, next;
    }
  }

  /**
   * The body of the outer loop of `remove_comments_preserve_strings`, which
   * resumes one past the end of the text after a backslash in the last
   * position of a literal.
   */
  method ScanStep(code: string, i: nat) returns (emitted: string, next: nat)
    requires i < |code|
    ensures i < next <= |code| + 1
    ensures emitted == Step(code, i).0
    ensures next == Step(code, i).1 || (next == |code| + 1 && Step(code, i).1 == |code|)
  {
    var n := |code|;
    var c := code[i];
    if c == '"' || c == '\'' {
      emitted, next := CopyLiteral(code, i);
    } else if c == '/' && i + 1 < n && code[i + 1] == '/' {
      emitted, next := SkipLineComment(code, i);
    } else if c == '/' && i + 1 < n && code[i + 1] == '*' {
      emitted, next := SkipBlockComment(code, i);
    } else {
      emitted, next := [c], i + 1;
    }
  }

  /** The literal branch of `remove_comments_preserve_strings` (lines 60-74). */
  method CopyLiteral(code: string, start: nat) returns (out: string, i: nat)
    requires start < |code| && IsQuote(code[start])
    ensures start < i <= |code| + 1
    ensures i <= |code| ==> i == LiteralEnd(code, start + 1, code[start]) && out == code[start..i]
    ensures i > |code| ==> LiteralEnd(code, start + 1, code[start]) == |code| && out == code[start..]
  {
    var n := |code|;
    var quote := code[start];
    ghost var e := LiteralEnd(code, start + 1, quote);
    out := [quote];
    i := start + 1;
    while i < n
      invariant start + 1 <= i <= n + 1
      invariant i <= n ==> LiteralEnd(code, i, quote) == e && out == code[start..i]
      invariant i > n ==> e == n && out == code[start..n]
      decreases n - i
    {
      SliceSnoc(code, start, i);
      out := out + [code[i]];
      if code[i] == '\\' {
        i := i + 1;
        if i < n {
          SliceSnoc(code, start, i);
          out := out + [code[i]];
        }
      } else if code[i] == quote {
        i := i + 1;
        return;
      }
      i := i + 1;
    }
  }

  /** The line-comment branch of `remove_comments_preserve_strings` (lines 75-82). */
  method SkipLineComment(code: string, start: nat) returns (out: string, i: nat)
    requires start + 1 < |code|
    ensures var k := LineEnd(code, start + 2);
      if k < |code| then out == "\n" && i == k + 1 else out == [] && i == k
  {
    var n := |code|;
    i := start + 2;
    while i < n && code[i] != '\n'
      invariant start + 2 <= i <= n && LineEnd(code, i) == LineEnd(code, start + 2)
    {
      i := i + 1;
    }
    out := [];
    if i < n && code[i] == '\n' {
      out := ['\n'];
      i := i + 1;
    }
  }

  lemma SliceSnoc(s: string, a: nat, b: nat)
    requires a <= b < |s|
    ensures s[a..b + 1] == s[a..b] + [s[b]]
  { }

  /** The block-comment branch of `remove_comments_preserve_strings` (lines 83-91). */
  method SkipBlockComment(code: string, start: nat) returns (out: string, i: nat)
    requires start + 1 < |code| && code[start] == '/' && code[start + 1] == '*'
    ensures var k := BlockEnd(code, start + 2);
      out == Newlines(code[start + 2..k]) && i == (if k + 1 < |code| then k + 2 else k)
  {
    var n := |code|;
    out := [];
    i := start + 2;
    while i + 1 < n && !(code[i] == '*' && code[i + 1] == '/')
      invariant start + 2 <= i <= n && BlockEnd(code, i) == BlockEnd(code, start + 2)
      invariant out == Newlines(code[start + 2..i])
    {
      NewlinesSnoc(code, start + 2, i);
      if code[i] == '\n' {
        out := out + ['\n'];
      }
      i := i + 1;
    }
    if i + 1 < n {
      i := i + 2;
    }
  }

  /**
   * The positions the outer loop of `build_paren_brace_maps` looks at from
   * `i` on: every position outside string and character literals, the
   * opening quote of a literal included and its body skipped.
   */
  function Visited(code: string, i: nat): (r: set<nat>)
    ensures forall p :: p in r ==> i <= p < |code|
    decreases |code| - i
  {
    if i >= |code| then {}
    else {i} + Visited(code, if IsQuote(code[i]) then LiteralEnd(code, i + 1, code[i]) else i + 1)
  }

  /** The five dictionaries `build_paren_brace_maps` returns. */
  datatype BracketMaps = BracketMaps(
    parenOpenToClose: map<nat, nat>,
    parenCloseToOpen: map<nat, nat>,
    braceOpenToClose: map<nat, nat>,
    braceCloseToOpen: map<nat, nat>,
    braceDepth: map<nat, nat>)

  /**
   * `o2c` and `c2o` pair `open` and `close` characters at the positions in
   * `vis` as a stack does: each pair opens before it closes, the two maps are
   * inverse, pairs nest without crossing, a closer left unpaired has every
   * opener before it already closed before it, and after an opener left
   * unpaired every closer is paired with a later opener.
   */
  ghost predicate StackMatched(code: string, vis: set<nat>, o2c: map<nat, nat>, c2o: map<nat, nat>, open: char, close: char) {
    Bounded(code, vis) &&
    Paired(code, vis, o2c, c2o, open, close) &&
    Nested(o2c) &&
    ClosedBefore(code, vis, o2c, c2o, open, close) &&
    OpenedAfter(code, vis, o2c, c2o, open, close)
  }

  ghost predicate Bounded(code: string, done: set<nat>) {
    forall p :: p in done ==> p < |code|
  }

  ghost predicate Paired(code: string, vis: set<nat>, o2c: map<nat, nat>, c2o: map<nat, nat>, open: char, close: char)
    requires Bounded(code, vis)
  {
    (forall o :: o in o2c ==>
      o in vis && o2c[o] in vis && o < o2c[o] && code[o] == open && code[o2c[o]] == close &&
      o2c[o] in c2o && c2o[o2c[o]] == o) &&
    (forall c :: c in c2o ==> c2o[c] in o2c && o2c[c2o[c]] == c)
  }

  ghost predicate Nested(o2c: map<nat, nat>) {
    forall o1, o2 :: o1 in o2c && o2 in o2c && o1 < o2 < o2c[o1] ==> o2c[o2] < o2c[o1]
  }

  /**
   * The loop invariant of the matcher: `done` is what has been looked at so
   * far, and `st` holds, in increasing order, exactly the openers not yet
   * paired, none of them inside a pair.
   */
  ghost predicate Matching(code: string, done: set<nat>, st: seq<nat>, o2c: map<nat, nat>, c2o: map<nat, nat>, open: char, close: char) {
    Bounded(code, done) &&
    Paired(code, done, o2c, c2o, open, close) &&
    Nested(o2c) &&
    Stacked(code, done, st, o2c, open) &&
    Outside(st, o2c) &&
    ClosedBefore(code, done, o2c, c2o, open, close) &&
    PairedAfter(code, done, st, c2o, close)
  }

  /** The stack holds, in increasing order, exactly the unpaired openers. */
  ghost predicate Stacked(code: string, done: set<nat>, st: seq<nat>, o2c: map<nat, nat>, open: char)
    requires Bounded(code, done)
  {
    (forall k :: 0 <= k < |st| ==> st[k] in done && code[st[k]] == open && st[k] !in o2c) &&
    (forall k, l :: 0 <= k < l < |st| ==> st[k] < st[l]) &&
    (forall o :: o in done && code[o] == open && o !in o2c ==> o in st)
  }

  /** No opener on the stack lies inside a pair. */
  ghost predicate Outside(st: seq<nat>, o2c: map<nat, nat>) {
    forall k, o :: 0 <= k < |st| && o in o2c ==> !(o < st[k] < o2c[o])
  }

  /** Every opener before an unpaired closer is paired before it. */
  ghost predicate ClosedBefore(code: string, done: set<nat>, o2c: map<nat, nat>, c2o: map<nat, nat>, open: char, close: char)
    requires Bounded(code, done)
  {
    forall c, o :: c in done && code[c] == close && c !in c2o && o in done && code[o] == open && o < c ==>
      o in o2c && o2c[o] < c
  }

  /** Every closer after an unpaired opener is paired with a later opener. */
  ghost predicate OpenedAfter(code: string, vis: set<nat>, o2c: map<nat, nat>, c2o: map<nat, nat>, open: char, close: char)
    requires Bounded(code, vis)
  {
    forall o, c :: o in vis && code[o] == open && o !in o2c && c in vis && code[c] == close && o < c ==>
      c in c2o && c2o[c] > o
  }

  /** Every closer after an opener on the stack is paired with a later opener. */
  ghost predicate PairedAfter(code: string, done: set<nat>, st: seq<nat>, c2o: map<nat, nat>, close: char)
    requires Bounded(code, done)
  {
    forall k, c :: 0 <= k < |st| && c in done && code[c] == close && st[k] < c ==>
      c in c2o && c2o[c] > st[k]
  }

  lemma MatchingDone(code: string, done: set<nat>, st: seq<nat>, o2c: map<nat, nat>, c2o: map<nat, nat>, open: char, close: char)
    requires Matching(code, done, st, o2c, c2o, open, close)
    ensures StackMatched(code, done, o2c, c2o, open, close)
  {
    UnpairedOpenerDone(code, done, st, o2c, c2o, open, close);
  }

  lemma UnpairedOpenerDone(code: string, done: set<nat>, st: seq<nat>, o2c: map<nat, nat>, c2o: map<nat, nat>, open: char, close: char)
    requires Bounded(code, done) && Stacked(code, done, st, o2c, open) && PairedAfter(code, done, st, c2o, close)
    ensures OpenedAfter(code, done, o2c, c2o, open, close)
  {
    forall o, c | o in done && code[o] == open && o !in o2c && c in done && code[c] == close && o < c
      ensures c in c2o && c2o[c] > o
    {
      var k :| 0 <= k < |st| && st[k] == o;
    }
  }

  lemma PairedGrow(code: string, done: set<nat>, i: nat, o2c: map<nat, nat>, c2o: map<nat, nat>, open: char, close: char)
    requires Bounded(code, done) && i < |code| && Paired(code, done, o2c, c2o, open, close)
    ensures Bounded(code, done + {i}) && Paired(code, done + {i}, o2c, c2o, open, close)
  { }

  /** A position that is neither `open` nor `close` leaves the matcher as it was. */
  lemma MatchOther(code: string, done: set<nat>, i: nat, st: seq<nat>, o2c: map<nat, nat>, c2o: map<nat, nat>, open: char, close: char)
    requires Matching(code, done, st, o2c, c2o, open, close)
    requires i < |code| && code[i] != open && code[i] != close
    ensures Matching(code, done + {i}, st, o2c, c2o, open, close)
  {
    PairedGrow(code, done, i, o2c, c2o, open, close);
    StackedOther(code, done, i, st, o2c, open);
    ClosedBeforeOther(code, done, i, o2c, c2o, open, close);
    PairedAfterOther(code, done, i, st, c2o, close);
  }

  lemma StackedOther(code: string, done: set<nat>, i: nat, st: seq<nat>, o2c: map<nat, nat>, open: char)
    requires Bounded(code, done) && i < |code| && code[i] != open && Stacked(code, done, st, o2c, open)
    ensures Bounded(code, done + {i}) && Stacked(code, done + {i}, st, o2c, open)
  { }

  lemma ClosedBeforeOther(code: string, done: set<nat>, i: nat, o2c: map<nat, nat>, c2o: map<nat, nat>, open: char, close: char)
    requires Bounded(code, done) && i < |code| && code[i] != open && code[i] != close
    requires ClosedBefore(code, done, o2c, c2o, open, close)
    ensures Bounded(code, done + {i}) && ClosedBefore(code, done + {i}, o2c, c2o, open, close)
  { }

  lemma PairedAfterOther(code: string, done: set<nat>, i: nat, st: seq<nat>, c2o: map<nat, nat>, close: char)
    requires Bounded(code, done) && i < |code| && code[i] != close && PairedAfter(code, done, st, c2o, close)
    ensures Bounded(code, done + {i}) && PairedAfter(code, done + {i}, st, c2o, close)
  { }

  /** An opener is pushed. */
  lemma MatchPush(code: string, done: set<nat>, i: nat, st: seq<nat>, o2c: map<nat, nat>, c2o: map<nat, nat>, open: char, close: char)
    requires Matching(code, done, st, o2c, c2o, open, close)
    requires i < |code| && code[i] == open && open != close && forall p :: p in done ==> p < i
    ensures Matching(code, done + {i}, st + [i], o2c, c2o, open, close)
  {
    PairedGrow(code, done, i, o2c, c2o, open, close);
    StackedPush(code, done, i, st, o2c, open);
    OutsidePush(code, done, i, st, o2c, c2o, open, close);
    ClosedBeforePush(code, done, i, o2c, c2o, open, close);
    PairedAfterPush(code, done, i, st, c2o, close);
  }

  lemma StackedPush(code: string, done: set<nat>, i: nat, st: seq<nat>, o2c: map<nat, nat>, open: char)
    requires Bounded(code, done) && i < |code| && code[i] == open && forall p :: p in done ==> p < i
    requires Stacked(code, done, st, o2c, open) && forall o :: o in o2c ==> o in done
    ensures Bounded(code, done + {i}) && Stacked(code, done + {i}, st + [i], o2c, open)
  {
    var st' := st + [i];
    forall o | o in done + {i} && code[o] == open && o !in o2c
      ensures o in st'
    {
    }
  }

  lemma OutsidePush(code: string, done: set<nat>, i: nat, st: seq<nat>, o2c: map<nat, nat>, c2o: map<nat, nat>, open: char, close: char)
    requires Bounded(code, done) && Paired(code, done, o2c, c2o, open, close) && forall p :: p in done ==> p < i
    requires Outside(st, o2c)
    ensures Outside(st + [i], o2c)
  { }

  lemma ClosedBeforePush(code: string, done: set<nat>, i: nat, o2c: map<nat, nat>, c2o: map<nat, nat>, open: char, close: char)
    requires Bounded(code, done) && i < |code| && code[i] == open && open != close && forall p :: p in done ==> p < i
    requires ClosedBefore(code, done, o2c, c2o, open, close)
    ensures Bounded(code, done + {i}) && ClosedBefore(code, done + {i}, o2c, c2o, open, close)
  { }

  lemma PairedAfterPush(code: string, done: set<nat>, i: nat, st: seq<nat>, c2o: map<nat, nat>, close: char)
    requires Bounded(code, done) && i < |code| && code[i] != close && forall p :: p in done ==> p < i
    requires PairedAfter(code, done, st, c2o, close)
    ensures Bounded(code, done + {i}) && PairedAfter(code, done + {i}, st + [i], c2o, close)
  { }

  /** A closer with nothing to pair it with is ignored. */
  lemma MatchUnpaired(code: string, done: set<nat>, i: nat, st: seq<nat>, o2c: map<nat, nat>, c2o: map<nat, nat>, open: char, close: char)
    requires Matching(code, done, st, o2c, c2o, open, close)
    requires i < |code| && code[i] == close && open != close && st == [] && forall p :: p in done ==> p < i
    ensures Matching(code, done + {i}, st, o2c, c2o, open, close)
  {
    PairedGrow(code, done, i, o2c, c2o, open, close);
    StackedOther(code, done, i, st, o2c, open);
    ClosedBeforeUnpaired(code, done, i, st, o2c, c2o, open, close);
  }

  lemma ClosedBeforeUnpaired(code: string, done: set<nat>, i: nat, st: seq<nat>, o2c: map<nat, nat>, c2o: map<nat, nat>, open: char, close: char)
    requires Bounded(code, done) && i < |code| && code[i] == close && open != close && forall p :: p in done ==> p < i
    requires Paired(code, done, o2c, c2o, open, close) && Stacked(code, done, st, o2c, open) && st == []
    requires ClosedBefore(code, done, o2c, c2o, open, close) && forall c :: c in c2o ==> c in done
    ensures Bounded(code, done + {i}) && ClosedBefore(code, done + {i}, o2c, c2o, open, close)
  {
    forall c, o | c in done + {i} && code[c] == close && c !in c2o && o in done + {i} && code[o] == open && o < c
      ensures o in o2c && o2c[o] < c
    {
      if c == i {
        assert o in o2c;
      }
    }
  }

  /** A closer pairs with the opener on top of the stack, which is popped. */
  lemma MatchPop(code: string, done: set<nat>, i: nat, st: seq<nat>, o2c: map<nat, nat>, c2o: map<nat, nat>, open: char, close: char)
    requires Matching(code, done, st, o2c, c2o, open, close)
    requires i < |code| && code[i] == close && open != close && st != [] && forall p :: p in done ==> p < i
    ensures var top := st[|st| - 1];
      Matching(code, done + {i}, st[..|st| - 1], o2c[top := i], c2o[i := top], open, close)
  {
    var top := st[|st| - 1];
    PairedPop(code, done, i, st, o2c, c2o, open, close);
    NestedPop(code, done, i, st, o2c, c2o, open, close);
    StackedPop(code, done, i, st, o2c, open);
    OutsidePop(code, done, i, st, o2c, c2o, open, close);
    ClosedBeforePop(code, done, i, st, o2c, c2o, open, close);
    PairedAfterPop(code, done, i, st, c2o, close);
  }

  lemma PairedPop(code: string, done: set<nat>, i: nat, st: seq<nat>, o2c: map<nat, nat>, c2o: map<nat, nat>, open: char, close: char)
    requires Bounded(code, done) && i < |code| && code[i] == close && st != [] && forall p :: p in done ==> p < i
    requires Paired(code, done, o2c, c2o, open, close)
    requires st[|st| - 1] in done && code[st[|st| - 1]] == open && st[|st| - 1] !in o2c
    ensures var top := st[|st| - 1];
      Bounded(code, done + {i}) && Paired(code, done + {i}, o2c[top := i], c2o[i := top], open, close)
  { }

  lemma NestedPop(code: string, done: set<nat>, i: nat, st: seq<nat>, o2c: map<nat, nat>, c2o: map<nat, nat>, open: char, close: char)
    requires Bounded(code, done) && st != [] && forall p :: p in done ==> p < i
    requires Paired(code, done, o2c, c2o, open, close) && Nested(o2c) && Outside(st, o2c)
    requires st[|st| - 1] in done && st[|st| - 1] !in o2c
    ensures Nested(o2c[st[|st| - 1] := i])
  {
    var top := st[|st| - 1];
    var o2c' := o2c[top := i];
    forall o1, o2 | o1 in o2c' && o2 in o2c' && o1 < o2 < o2c'[o1]
      ensures o2c'[o2] < o2c'[o1]
    {
    }
  }

  lemma StackedPop(code: string, done: set<nat>, i: nat, st: seq<nat>, o2c: map<nat, nat>, open: char)
    requires Bounded(code, done) && i < |code| && code[i] != open && st != [] && forall p :: p in done ==> p < i
    requires Stacked(code, done, st, o2c, open)
    ensures var top := st[|st| - 1];
      Bounded(code, done + {i}) && Stacked(code, done + {i}, st[..|st| - 1], o2c[top := i], open)
  {
    var top := st[|st| - 1];
    var st', o2c' := st[..|st| - 1], o2c[top := i];
    forall o | o in done + {i} && code[o] == open && o !in o2c'
      ensures o in st'
    {
      var k :| 0 <= k < |st| && st[k] == o;
      assert k < |st| - 1 && st'[k] == o;
    }
  }

  lemma OutsidePop(code: string, done: set<nat>, i: nat, st: seq<nat>, o2c: map<nat, nat>, c2o: map<nat, nat>, open: char, close: char)
    requires Bounded(code, done) && i < |code| && st != [] && forall p :: p in done ==> p < i
    requires Stacked(code, done, st, o2c, open) && Outside(st, o2c)
    ensures Outside(st[..|st| - 1], o2c[st[|st| - 1] := i])
  {
    var top := st[|st| - 1];
    var st', o2c' := st[..|st| - 1], o2c[top := i];
    forall k, o | 0 <= k < |st'| && o in o2c'
      ensures !(o < st'[k] < o2c'[o])
    {
      assert st'[k] == st[k] && st[k] < top;
    }
  }

  lemma ClosedBeforePop(code: string, done: set<nat>, i: nat, st: seq<nat>, o2c: map<nat, nat>, c2o: map<nat, nat>, open: char, close: char)
    requires Bounded(code, done) && i < |code| && code[i] == close && st != [] && forall p :: p in done ==> p < i
    requires Stacked(code, done, st, o2c, open) && ClosedBefore(code, done, o2c, c2o, open, close)
    ensures var top := st[|st| - 1];
      Bounded(code, done + {i}) && ClosedBefore(code, done + {i}, o2c[top := i], c2o[i := top], open, close)
  { }

  lemma PairedAfterPop(code: string, done: set<nat>, i: nat, st: seq<nat>, c2o: map<nat, nat>, close: char)
    requires Bounded(code, done) && i < |code| && st != [] && forall p :: p in done ==> p < i
    requires forall k, l :: 0 <= k < l < |st| ==> st[k] < st[l]
    requires PairedAfter(code, done, st, c2o, close)
    ensures Bounded(code, done + {i}) && PairedAfter(code, done + {i}, st[..|st| - 1], c2o[i := st[|st| - 1]], close)
  { }

  /** Every opener before `o` whose pair, if any, closes after `o`. */
  function Enclosing(opens: set<nat>, o2c: map<nat, nat>, o: nat): set<nat> {
    set p | p in opens && p < o && (p !in o2c || o2c[p] > o)
  }

  /** The invariant of `brace_depth`: each opener's depth counts the braces around it. */
  ghost predicate Depths(code: string, done: set<nat>, depth: map<nat, nat>, o2c: map<nat, nat>) {
    (forall p :: p in done ==> p < |code|) &&
    (forall o :: o in depth <==> o in done && code[o] == '{') &&
    (forall o :: o in depth ==> depth[o] == |Enclosing(depth.Keys, o2c, o)|)
  }

  function Elems(st: seq<nat>): set<nat> {
    set x | x in st
  }

  /** The distinct elements of an increasing stack are as many as its length. */
  lemma {:induction false} IncreasingCard(st: seq<nat>)
    requires forall k, l :: 0 <= k < l < |st| ==> st[k] < st[l]
    ensures |Elems(st)| == |st|
  {
    if st != [] {
      var init := st[..|st| - 1];
      IncreasingCard(init);
      assert st == init + [st[|st| - 1]];
      assert st[|st| - 1] !in Elems(init);
      assert Elems(st) == Elems(init) + {st[|st| - 1]};
    }
  }

  lemma DepthsOther(code: string, done: set<nat>, i: nat, depth: map<nat, nat>, o2c: map<nat, nat>)
    requires Depths(code, done, depth, o2c) && i < |code| && code[i] != '{'
    ensures Depths(code, done + {i}, depth, o2c)
  { }

  /** A brace is opened at `i`, with as many braces around it as are on the stack. */
  lemma DepthsPush(code: string, done: set<nat>, i: nat, st: seq<nat>, depth: map<nat, nat>, o2c: map<nat, nat>)
    requires Depths(code, done, depth, o2c)
    requires Stacked(code, done, st, o2c, '{') && forall o :: o in o2c ==> o2c[o] in done
    requires i < |code| && code[i] == '{' && forall p :: p in done ==> p < i
    ensures Depths(code, done + {i}, depth[i := |st|], o2c)
  {
    var depth' := depth[i := |st|];
    assert depth'.Keys == depth.Keys + {i};
    forall o | o in depth
      ensures Enclosing(depth'.Keys, o2c, o) == Enclosing(depth.Keys, o2c, o)
    {
    }
    assert Enclosing(depth'.Keys, o2c, i) == Elems(st);
    IncreasingCard(st);
  }

  /** The brace on top of the stack is closed at `i`; no depth changes. */
  lemma DepthsPop(code: string, done: set<nat>, i: nat, top: nat, depth: map<nat, nat>, o2c: map<nat, nat>)
    requires Depths(code, done, depth, o2c)
    requires i < |code| && code[i] == '}' && top !in o2c && forall p :: p in done ==> p < i
    ensures Depths(code, done + {i}, depth, o2c[top := i])
  {
    var o2c' := o2c[top := i];
    forall o | o in depth
      ensures Enclosing(depth.Keys, o2c', o) == Enclosing(depth.Keys, o2c, o)
    {
    }
  }

  /** The literal-skipping loop of `build_paren_brace_maps` (lines 111-122). */
  method SkipLiteral(code: string, start: nat) returns (i: nat)
    requires start < |code| && IsQuote(code[start])
    ensures i == LiteralEnd(code, start + 1, code[start]) ||
      (i == |code| + 1 && LiteralEnd(code, start + 1, code[start]) == |code|)
  {
    var n := |code|;
    var quote := code[start];
    i := start + 1;
    while i < n
      invariant start + 1 <= i <= n + 1
      invariant i <= n ==> LiteralEnd(code, i, quote) == LiteralEnd(code, start + 1, quote)
      invariant i > n ==> LiteralEnd(code, start + 1, quote) == n
      decreases n - i
    {
      if code[i] == '\\' {
        i := i + 2;
      } else if code[i] == quote {
        i := i + 1;
        return;
      } else {
        i := i + 1;
      }
    }
  }

  /**
   * `build_paren_brace_maps` (lines 96-141): parentheses and braces outside
   * literals are paired as a stack pairs them, and each opening brace
   * records how many braces enclose it.
   */
  method BuildParenBraceMaps(code: string) returns (m: BracketMaps)
    ensures StackMatched(code, Visited(code, 0), m.parenOpenToClose, m.parenCloseToOpen, '(', ')')
    ensures StackMatched(code, Visited(code, 0), m.braceOpenToClose, m.braceCloseToOpen, '{', '}')
    ensures Depths(code, Visited(code, 0), m.braceDepth, m.braceOpenToClose)
  {
    var parenOpenToClose: map<nat, nat> := map[];
    var parenCloseToOpen: map<nat, nat> := map[];
    var braceOpenToClose: map<nat, nat> := map[];
    var braceCloseToOpen: map<nat, nat> := map[];
    var braceDepth: map<nat, nat> := map[];
    var parenStack: seq<nat> := [];
    var braceStack: seq<nat> := [];
    ghost var done: set<nat> := {};
    var i: nat := 0;
    var n := |code|;
    while i < n
      invariant i <= n + 1
      invariant forall p :: p in done ==> p < i && p < n
      invariant i <= n ==> Visited(code, 0) == done + Visited(code, i)
      invariant i > n ==> Visited(code, 0) == done
      invariant Matching(code, done, parenStack, parenOpenToClose, parenCloseToOpen, '(', ')')
      invariant Matching(code, done, braceStack, braceOpenToClose, braceCloseToOpen, '{', '}')
      invariant Depths(code, done, braceDepth, braceOpenToClose)
      decreases n - i
    {
      var c := code[i];
      parenStack, parenOpenToClose, parenCloseToOpen, braceStack, braceOpenToClose, braceCloseToOpen, braceDepth :=
        VisitChar(code, done, i, parenStack, parenOpenToClose, parenCloseToOpen, braceStack, braceOpenToClose, braceCloseToOpen, braceDepth);
      ghost var before := done;
      done := done + {i};
      var next: nat;
      if c == '"' || c == '\'' {
        next := SkipLiteral(code, i);
      } else {
        next := i + 1;
      }
      VisitedAdvance(code, before, i, next);
      i := next;
    }
    MatchingDone(code, done, parenStack, parenOpenToClose, parenCloseToOpen, '(', ')');
    MatchingDone(code, done, braceStack, braceOpenToClose, braceCloseToOpen, '{', '}');
    m := BracketMaps(parenOpenToClose, parenCloseToOpen, braceOpenToClose, braceCloseToOpen, braceDepth);
  }

  /**
   * The bracket branches of the outer loop of `build_paren_brace_maps`
   * (lines 123-138) for one position; any other character, the quote
   * opening a literal included, changes nothing.
   */
  method VisitChar(code: string, ghost done: set<nat>, i: nat,
                   parenStack: seq<nat>, parenOpenToClose: map<nat, nat>, parenCloseToOpen: map<nat, nat>,
                   braceStack: seq<nat>, braceOpenToClose: map<nat, nat>, braceCloseToOpen: map<nat, nat>,
                   braceDepth: map<nat, nat>)
    returns (parenStack': seq<nat>, parenOpenToClose': map<nat, nat>, parenCloseToOpen': map<nat, nat>,
             braceStack': seq<nat>, braceOpenToClose': map<nat, nat>, braceCloseToOpen': map<nat, nat>,
             braceDepth': map<nat, nat>)
    requires i < |code| && forall p :: p in done ==> p < i
    requires Matching(code, done, parenStack, parenOpenToClose, parenCloseToOpen, '(', ')')
    requires Matching(code, done, braceStack, braceOpenToClose, braceCloseToOpen, '{', '}')
    requires Depths(code, done, braceDepth, braceOpenToClose)
    ensures Matching(code, done + {i}, parenStack', parenOpenToClose', parenCloseToOpen', '(', ')')
    ensures Matching(code, done + {i}, braceStack', braceOpenToClose', braceCloseToOpen', '{', '}')
    ensures Depths(code, done + {i}, braceDepth', braceOpenToClose')
  {
    parenStack', parenOpenToClose', parenCloseToOpen' := parenStack, parenOpenToClose, parenCloseToOpen;
    braceStack', braceOpenToClose', braceCloseToOpen', braceDepth' := braceStack, braceOpenToClose, braceCloseToOpen, braceDepth;
    var c := code[i];
    if c == '(' || c == ')' {
      MatchOther(code, done, i, braceStack, braceOpenToClose, braceCloseToOpen, '{', '}');
      DepthsOther(code, done, i, braceDepth, braceOpenToClose);
      parenStack', parenOpenToClose', parenCloseToOpen' := ParenAt(code, done, i, parenStack, parenOpenToClose, parenCloseToOpen);
    } else if c == '{' || c == '}' {
      MatchOther(code, done, i, parenStack, parenOpenToClose, parenCloseToOpen, '(', ')');
      braceStack', braceOpenToClose', braceCloseToOpen', braceDepth' := BraceAt(code, done, i, braceStack, braceOpenToClose, braceCloseToOpen, braceDepth);
    } else {
      MatchOther(code, done, i, parenStack, parenOpenToClose, parenCloseToOpen, '(', ')');
      MatchOther(code, done, i, braceStack, braceOpenToClose, braceCloseToOpen, '{', '}');
      DepthsOther(code, done, i, braceDepth, braceOpenToClose);
    }
  }

  /** The parenthesis branch of `build_paren_brace_maps` (lines 123-129). */
  method ParenAt(code: string, ghost done: set<nat>, i: nat, st: seq<nat>, o2c: map<nat, nat>, c2o: map<nat, nat>)
    returns (st': seq<nat>, o2c': map<nat, nat>, c2o': map<nat, nat>)
    requires Matching(code, done, st, o2c, c2o, '(', ')')
    requires i < |code| && (code[i] == '(' || code[i] == ')') && forall p :: p in done ==> p < i
    ensures Matching(code, done + {i}, st', o2c', c2o', '(', ')')
  {
    if code[i] == '(' {
      MatchPush(code, done, i, st, o2c, c2o, '(', ')');
      st', o2c', c2o' := st + [i], o2c, c2o;
    } else if st != [] {
      MatchPop(code, done, i, st, o2c, c2o, '(', ')');
      var o := st[|st| - 1];
      st', o2c', c2o' := st[..|st| - 1], o2c[o := i], c2o[i := o];
    } else {
      MatchUnpaired(code, done, i, st, o2c, c2o, '(', ')');
      st', o2c', c2o' := st, o2c, c2o;
    }
  }

  /** The brace branch of `build_paren_brace_maps` (lines 130-138). */
  method BraceAt(code: string, ghost done: set<nat>, i: nat, st: seq<nat>, o2c: map<nat, nat>, c2o: map<nat, nat>, depth: map<nat, nat>)
    returns (st': seq<nat>, o2c': map<nat, nat>, c2o': map<nat, nat>, depth': map<nat, nat>)
    requires Matching(code, done, st, o2c, c2o, '{', '}') && Depths(code, done, depth, o2c)
    requires i < |code| && (code[i] == '{' || code[i] == '}') && forall p :: p in done ==> p < i
    ensures Matching(code, done + {i}, st', o2c', c2o', '{', '}') && Depths(code, done + {i}, depth', o2c')
  {
    if code[i] == '{' {
      MatchPush(code, done, i, st, o2c, c2o, '{', '}');
      DepthsPush(code, done, i, st, depth, o2c);
      var d := |st|;
      st', o2c', c2o' := st + [i], o2c, c2o;
      depth' := depth[i := d];
    } else if st != [] {
      MatchPop(code, done, i, st, o2c, c2o, '{', '}');
      DepthsPop(code, done, i, st[|st| - 1], depth, o2c);
      var o := st[|st| - 1];
      st', o2c', c2o' := st[..|st| - 1], o2c[o := i], c2o[i := o];
      depth' := depth;
    } else {
      MatchUnpaired(code, done, i, st, o2c, c2o, '{', '}');
      DepthsOther(code, done, i, depth, o2c);
      st', o2c', c2o', depth' := st, o2c, c2o, depth;
    }
  }

  /** The positions looked at so far and those still to come make up all of them. */
  lemma VisitedAdvance(code: string, done: set<nat>, i: nat, next: nat)
    requires i < |code| && Visited(code, 0) == done + Visited(code, i)
    requires var e := if IsQuote(code[i]) then LiteralEnd(code, i + 1, code[i]) else i + 1;
      next == e || (next == |code| + 1 && e == |code|)
    ensures next <= |code| ==> Visited(code, 0) == (done + {i}) + Visited(code, next)
    ensures next > |code| ==> Visited(code, 0) == done + {i}
  {
    assert Visited(code, i) == {i} + Visited(code, if IsQuote(code[i]) then LiteralEnd(code, i + 1, code[i]) else i + 1);
  }

  /** The C control keywords that `extract_name_before_paren` never takes for a name (lines 50-51). */
  const ControlKeywords: seq<string> :=
    ["if", "for", "while", "switch", "else", "do", "return", "sizeof", "case", "default", "catch", "goto"]

  /** `name` is one of `words`, looked at one word at a time. */
  predicate Listed(name: string, words: seq<string>) {
    words != [] && (name == words[0] || Listed(name, words[1..]))
  }

  /** `c.isalnum() or c == '_'`, with letters and digits taken as ASCII. */
  predicate IsIdentChar(c: char) {
    'a' <= c <= 'z' || 'A' <= c <= 'Z' || '0' <= c <= '9' || c == '_'
  }

  /** The names `extract_name_before_paren` refuses: keywords and attribute markers. */
  predicate Refused(name: string) {
    Listed(name, ControlKeywords) || StartsWith(name, "__attribute") || name == "attribute" || name == "__declspec"
  }

  /** The start of the run of white space that ends at `pos`. */
  function SpaceStart(code: string, pos: nat): (e: nat)
    requires pos <= |code|
    ensures e <= pos && (e == 0 || !IsSpace(code[e - 1]))
    decreases pos
  {
    if pos == 0 || !IsSpace(code[pos - 1]) then pos else SpaceStart(code, pos - 1)
  }

  /** Everything from `SpaceStart(code, pos)` up to `pos` is white space. */
  lemma {:induction false} SpaceStartSpaces(code: string, pos: nat)
    requires pos <= |code|
    ensures forall m :: SpaceStart(code, pos) <= m < pos ==> IsSpace(code[m])
    decreases pos
  {
    if pos > 0 && IsSpace(code[pos - 1]) {
      SpaceStartSpaces(code, pos - 1);
    }
  }

  /** The start of the run of identifier characters that ends at `e`. */
  function WordStart(code: string, e: nat): (s: nat)
    requires e <= |code|
    ensures s <= e && (s == 0 || !IsIdentChar(code[s - 1]))
    decreases e
  {
    if e == 0 || !IsIdentChar(code[e - 1]) then e else WordStart(code, e - 1)
  }

  /** Everything from `WordStart(code, e)` up to `e` is an identifier character. */
  lemma {:induction false} WordStartIdent(code: string, e: nat)
    requires e <= |code|
    ensures forall m :: WordStart(code, e) <= m < e ==> IsIdentChar(code[m])
    decreases e
  {
    if e > 0 && IsIdentChar(code[e - 1]) {
      WordStartIdent(code, e - 1);
    }
  }

  /**
   * The name `extract_name_before_paren` finds before position `pos`: the
   * identifier that ends where the white space before `pos` begins, unless
   * it is empty or refused.
   */
  function NameBefore(code: string, pos: nat): Option<string>
    requires pos <= |code|
  {
    var e := SpaceStart(code, pos);
    Accepted(code[WordStart(code, e)..e])
  }

  /**
   * The word before the white space is made of identifier characters, so
   * the `strip` that `extract_name_before_paren` applies to it changes
   * nothing.
   */
  lemma WordUnstripped(code: string, pos: nat)
    requires pos <= |code|
    ensures var e := SpaceStart(code, pos);
      var word := code[WordStart(code, e)..e];
      Strip(word) == word
  {
    var e := SpaceStart(code, pos);
    var s := WordStart(code, e);
    WordStartIdent(code, e);
    IdentSlice(code, s, e);
    var word := code[s..e];
    if word != [] {
      IdentNotSpace(word[0]);
      IdentNotSpace(word[|word| - 1]);
    }
    StripNothing(word, Whitespace);
  }

  /** Stripping the word before `pos`, as `extract_name_before_paren` does, changes nothing. */
  lemma NameBeforeStripped(code: string, pos: nat)
    requires pos <= |code|
    ensures var e := SpaceStart(code, pos);
      NameBefore(code, pos) == Accepted(Strip(code[WordStart(code, e)..e]))
  {
    WordUnstripped(code, pos);
  }

  /** A candidate name is kept unless it is empty or refused. */
  function Accepted(name: string): Option<string> {
    if name == [] || Refused(name) then None else Some(name)
  }

  /** `extract_name_before_paren` (lines 143-159). */
  method ExtractNameBeforeParen(code: string, pos: nat) returns (r: Option<string>)
    requires pos <= |code|
    ensures r == NameBefore(code, pos)
  {
    var j: int := pos - 1;
    while j >= 0 && IsSpace(code[j])
      invariant -1 <= j < pos && SpaceStart(code, j + 1) == SpaceStart(code, pos)
    {
      j := j - 1;
    }
    var end := j;
    while j >= 0 && IsIdentChar(code[j])
      invariant -1 <= j <= end && WordStart(code, j + 1) == WordStart(code, end + 1)
    {
      j := j - 1;
    }
    var start := j + 1;
    var name := Strip(code[start..end + 1]);
    NameBeforeStripped(code, pos);
    if name == [] {
      return None;
    }
    if Listed(name, ControlKeywords) {
      return None;
    }
    if StartsWith(name, "__attribute") || name == "attribute" || name == "__declspec" {
      return None;
    }
    return Some(name);
  }

  lemma IdentNotSpace(c: char)
    requires IsIdentChar(c)
    ensures !IsSpace(c)
  { }

  /**
   * The name before `pos` is the identifier `code[s..e]` bounded by the white
   * space up to `pos` and by a character that is not part of an identifier,
   * unless that identifier is empty or refused.
   */
  lemma NameBeforeWord(code: string, pos: nat, s: nat, e: nat)
    requires s <= e <= pos <= |code|
    requires (e == 0 || !IsSpace(code[e - 1])) && forall m :: e <= m < pos ==> IsSpace(code[m])
    requires (s == 0 || !IsIdentChar(code[s - 1])) && forall m :: s <= m < e ==> IsIdentChar(code[m])
    ensures NameBefore(code, pos) == Accepted(code[s..e])
  {
    SpaceStartSpaces(code, pos);
    assert SpaceStart(code, pos) == e;
    WordStartIdent(code, e);
    assert WordStart(code, e) == s;
  }

  /** A name found is a non-empty identifier that is not refused. */
  lemma NameBeforeIsIdentifier(code: string, pos: nat)
    requires pos <= |code|
    ensures NameBefore(code, pos).Some? ==>
      var name := NameBefore(code, pos).value;
      name != [] && !Refused(name) && forall k :: 0 <= k < |name| ==> IsIdentChar(name[k])
  {
    var e := SpaceStart(code, pos);
    WordStartIdent(code, e);
    IdentSlice(code, WordStart(code, e), e);
    var word := code[WordStart(code, e)..e];
    AcceptedKeeps(word);
    assert NameBefore(code, pos) == Accepted(word);
  }

  /** A name that is kept is returned as it is, and is neither empty nor refused. */
  lemma AcceptedKeeps(name: string)
    ensures Accepted(name).Some? <==> name != [] && !Refused(name)
    ensures Accepted(name).Some? ==> Accepted(name).value == name
  { }

  lemma IdentSlice(code: string, s: nat, e: nat)
    requires s <= e <= |code| && forall m :: s <= m < e ==> IsIdentChar(code[m])
    ensures forall k :: 0 <= k < e - s ==> IsIdentChar(code[s..e][k])
  {
    forall k | 0 <= k < e - s
      ensures IsIdentChar(code[s..e][k])
    {
      assert code[s..e][k] == code[s + k];
    }
  }

  /**
   * What `separate` needs of the maps: every pair lies within the text, opens
   * before it closes, and pairs the right characters.
   */
  predicate MapsInRange(code: string, m: BracketMaps) {
    (forall o :: o in m.parenOpenToClose ==>
      o < m.parenOpenToClose[o] < |code| && code[o] == '(' && code[m.parenOpenToClose[o]] == ')') &&
    (forall o :: o in m.braceOpenToClose ==>
      o < m.braceOpenToClose[o] < |code| && code[o] == '{' && code[m.braceOpenToClose[o]] == '}')
  }

  /** The maps `build_paren_brace_maps` returns for `code`. */
  ghost predicate MapsOf(code: string, m: BracketMaps) {
    StackMatched(code, Visited(code, 0), m.parenOpenToClose, m.parenCloseToOpen, '(', ')') &&
    StackMatched(code, Visited(code, 0), m.braceOpenToClose, m.braceCloseToOpen, '{', '}') &&
    Depths(code, Visited(code, 0), m.braceDepth, m.braceOpenToClose)
  }

  lemma MapsOfInRange(code: string, m: BracketMaps)
    requires MapsOf(code, m)
    ensures MapsInRange(code, m)
  { }

  /** `code.rfind('\n', 0, pos)`: the last newline before `pos`, or -1. */
  function LastNewline(code: string, pos: nat): (r: int)
    requires pos <= |code|
    ensures -1 <= r < pos && (r >= 0 ==> code[r] == '\n')
    ensures forall k :: r < k < pos ==> code[k] != '\n'
    decreases pos
  {
    if pos == 0 then -1 else if code[pos - 1] == '\n' then pos - 1 else LastNewline(code, pos - 1)
  }

  /** Where the text of a function whose signature is at `pos` starts (lines 190-192). */
  function SignatureStart(code: string, pos: nat): (r: nat)
    requires pos <= |code|
    ensures r <= pos
  {
    var k := LastNewline(code, pos);
    if k == -1 then 0 else k
  }

  /**
   * The opening parenthesis nearest before `o` whose pair closes before
   * `limit` and which has a name before it, with that name: the first
   * candidate `separate` accepts, candidates being tried from the right.
   */
  function NamedParen(code: string, po2c: map<nat, nat>, limit: nat, o: nat): (r: Option<(nat, string)>)
    requires o <= |code|
    ensures r.Some? ==> r.value.0 < o
    decreases o
  {
    if o == 0 then None
    else if o - 1 in po2c && po2c[o - 1] < limit && NameBefore(code, o - 1).Some? then
      Some((o - 1, NameBefore(code, o - 1).value))
    else NamedParen(code, po2c, limit, o - 1)
  }

  /** A parenthesis `separate` accepts for a brace at `limit`: paired, closed before the brace, and named. */
  predicate NamedCandidate(code: string, po2c: map<nat, nat>, limit: nat, q: nat)
    requires q <= |code|
  {
    q in po2c && po2c[q] < limit && NameBefore(code, q).Some?
  }

  /**
   * The parenthesis `NamedParen` finds is the rightmost accepted candidate
   * before `o`, with its own name; when it finds none, there is none.
   */
  lemma {:induction false} NamedParenRightmost(code: string, po2c: map<nat, nat>, limit: nat, o: nat)
    requires o <= |code|
    ensures NamedParen(code, po2c, limit, o).Some? ==>
              var (q, name) := NamedParen(code, po2c, limit, o).value;
              q in po2c && po2c[q] < limit && NameBefore(code, q) == Some(name)
    ensures forall p: nat ::
              (NamedParen(code, po2c, limit, o).None? || NamedParen(code, po2c, limit, o).value.0 < p) && p < o ==>
              !NamedCandidate(code, po2c, limit, p)
    decreases o
  {
    if o == 0 {
    } else if NamedCandidate(code, po2c, limit, o - 1) {
      assert NamedParen(code, po2c, limit, o) == Some((o - 1, NameBefore(code, o - 1).value));
    } else {
      var r := NamedParen(code, po2c, limit, o - 1);
      assert NamedParen(code, po2c, limit, o) == r;
      NamedParenRightmost(code, po2c, limit, o - 1);
      var from := if r.Some? then r.value.0 + 1 else 0;
      forall p: nat | from <= p < o
        ensures !NamedCandidate(code, po2c, limit, p)
      {
        if p < o - 1 { }
      }
    }
  }

  /**
   * What `separate` records for the brace pair opening at `b` (lines
   * 176-207): the stripped text from the start of the signature line to the
   * closing brace, and the name before the nearest named parenthesis. With
   * no such parenthesis the text starts on the brace's own line and there
   * is no name: the fallback pattern of line 206 must end in `)` and white
   * space, and the text it searches ends in the brace itself.
   */
  function FunctionAt(code: string, m: BracketMaps, b: nat): (string, Option<string>)
    requires MapsInRange(code, m) && b in m.braceOpenToClose
  {
    var named := NamedParen(code, m.parenOpenToClose, b, b);
    (FunctionText(code, SignatureParen(code, m, b), m.braceOpenToClose[b]),
     if named.Some? then Some(named.value.1) else None)
  }

  /**
   * The text recorded for the brace pair at `b` ends in its closing brace
   * and is long enough to reach back to the signature's bracket.
   */
  lemma FunctionAtSpan(code: string, m: BracketMaps, b: nat)
    requires MapsInRange(code, m) && b in m.braceOpenToClose
    ensures var text := FunctionAt(code, m, b).0;
      m.braceOpenToClose[b] + 1 - SignatureParen(code, m, b) <= |text| && text[|text| - 1] == '}'
  {
    FunctionTextSpan(code, SignatureParen(code, m, b), m.braceOpenToClose[b]);
  }

  /**
   * Where the signature of the function whose body opens at `b` is taken
   * from: the named parenthesis, or the brace itself when there is none.
   */
  function SignatureParen(code: string, m: BracketMaps, b: nat): (from: nat)
    requires MapsInRange(code, m) && b in m.braceOpenToClose
    ensures from <= b && code[from] in "({"
    ensures NamedParen(code, m.parenOpenToClose, b, b).Some? ==> from == NamedParen(code, m.parenOpenToClose, b, b).value.0
  {
    NamedParenOpens(code, m, b);
    var named := NamedParen(code, m.parenOpenToClose, b, b);
    if named.Some? then named.value.0 else b
  }

  /** The stripped text from the start of the line holding `from` through the brace at `close`. */
  function FunctionText(code: string, from: nat, close: nat): string
    requires from <= close < |code|
  {
    Strip(code[SignatureStart(code, from)..close + 1])
  }

  /**
   * When `from` holds a bracket and `close` a closing brace, the function
   * text runs from at or before `from` to the closing brace.
   */
  lemma FunctionTextSpan(code: string, from: nat, close: nat)
    requires from <= close < |code| && code[from] in "({" && code[close] == '}'
    ensures var text := FunctionText(code, from, close);
      close + 1 - from <= |text| && text[|text| - 1] == '}'
  {
    var start := SignatureStart(code, from);
    var lines := code[start..close + 1];
    assert |lines| == close + 1 - start;
    assert lines[from - start] == code[from] && lines[|lines| - 1] == code[close];
    BracketsNotSpace();
    assert !IsSpace(lines[from - start]) && !IsSpace(lines[|lines| - 1]);
    StripSpan(lines, from - start);
    assert FunctionText(code, from, close) == Strip(lines);
  }

  /** A brace pair at top level: not inside any other brace. */
  predicate TopLevelBrace(m: BracketMaps, b: nat) {
    b in m.braceOpenToClose && (b !in m.braceDepth || m.braceDepth[b] == 0)
  }

  /** What `separate` records for the top-level brace pairs opening at `b` or later, in order. */
  function Functions(code: string, m: BracketMaps, b: nat): seq<(string, Option<string>)>
    requires MapsInRange(code, m)
    decreases |code| - b
  {
    if b >= |code| then []
    else (if TopLevelBrace(m, b) then [FunctionAt(code, m, b)] else []) + Functions(code, m, b + 1)
  }

  /** The texts of a sequence of functions. */
  function Texts(fs: seq<(string, Option<string>)>): seq<string>
  {
    seq(|fs|, k requires 0 <= k < |fs| => fs[k].0)
  }

  /** The names of a sequence of functions. */
  function Names(fs: seq<(string, Option<string>)>): seq<Option<string>>
  {
    seq(|fs|, k requires 0 <= k < |fs| => fs[k].1)
  }

  /** The candidate loop of `separate` (lines 179-197), rightmost candidate first. */
  method FindNamedParen(code: string, po2c: map<nat, nat>, limit: nat) returns (r: Option<(nat, string)>)
    requires limit <= |code|
    ensures r == NamedParen(code, po2c, limit, limit)
  {
    var o: nat := limit;
    while o > 0
      invariant o <= limit
      invariant NamedParen(code, po2c, limit, o) == NamedParen(code, po2c, limit, limit)
    {
      o := o - 1;
      if o in po2c && po2c[o] < limit {
        var name := ExtractNameBeforeParen(code, o);
        if name.Some? {
          return Some((o, name.value));
        }
      }
    }
    return None;
  }

  /** The body of the loop of `separate` for one top-level brace pair (lines 176-207). */
  method RecordFunction(code: string, m: BracketMaps, b: nat) returns (text: string, name: Option<string>)
    requires MapsInRange(code, m) && b in m.braceOpenToClose
    ensures (text, name) == FunctionAt(code, m, b)
  {
    var close := m.braceOpenToClose[b];
    var candidate := FindNamedParen(code, m.parenOpenToClose, b);
    if candidate.Some? {
      text := FunctionText(code, candidate.value.0, close);
      name := Some(candidate.value.1);
    } else {
      text := FunctionText(code, b, close);
      name := None;
    }
    assert SignatureParen(code, m, b) == if candidate.Some? then candidate.value.0 else b;
  }

  /** Texts and names distribute over concatenation: recording more functions extends both lists by theirs. */
  lemma TextsNamesAppend(fs: seq<(string, Option<string>)>, gs: seq<(string, Option<string>)>)
    ensures Texts(fs + gs) == Texts(fs) + Texts(gs) && Names(fs + gs) == Names(fs) + Names(gs)
  {
    forall k | 0 <= k < |fs + gs|
      ensures Texts(fs + gs)[k] == (Texts(fs) + Texts(gs))[k]
      ensures Names(fs + gs)[k] == (Names(fs) + Names(gs))[k]
    {
      if k < |fs| {
        assert (fs + gs)[k] == fs[k];
      } else {
        assert (fs + gs)[k] == gs[k - |fs|];
      }
    }
  }

  /** The loop of `separate` over the brace pairs (lines 174-207), given the comment-free text and its maps. */
  method SeparateCode(code: string, m: BracketMaps) returns (funcs: seq<string>, names: seq<Option<string>>)
    requires MapsInRange(code, m)
    ensures funcs == Texts(Functions(code, m, 0)) && names == Names(Functions(code, m, 0))
  {
    funcs, names := [], [];
    ghost var found: seq<(string, Option<string>)> := [];
    var b := 0;
    while b < |code|
      invariant b <= |code|
      invariant found + Functions(code, m, b) == Functions(code, m, 0)
      invariant funcs == Texts(found) && names == Names(found)
    {
      ghost var rest := Functions(code, m, b + 1);
      if TopLevelBrace(m, b) {
        var text, name := RecordFunction(code, m, b);
        assert Functions(code, m, b) == [(text, name)] + rest;
        assert (found + [(text, name)]) + rest == found + ([(text, name)] + rest);
        TextsNamesAppend(found, [(text, name)]);
        found := found + [(text, name)];
        funcs := funcs + [text];
        names := names + [name];
      } else {
        assert Functions(code, m, b) == rest;
      }
      b := b + 1;
    }
  }

  /**
   * `separate` (lines 161-209) on the text of a file: comments removed,
   * brackets paired, and one text and name recorded per top-level brace
   * pair.
   */
  method Separate(txt: string) returns (funcs: seq<string>, names: seq<Option<string>>)
    ensures exists m ::
              MapsOf(Scan(txt, 0), m) &&
              funcs == Texts(Functions(Scan(txt, 0), m, 0)) &&
              names == Names(Functions(Scan(txt, 0), m, 0))
  {
    var code := RemoveComments(txt);
    var m := BuildParenBraceMaps(code);
    MapsOfInRange(code, m);
    funcs, names := SeparateCode(code, m);
  }

  /** The parenthesis `NamedParen` finds for a brace is an opening one. */
  lemma NamedParenOpens(code: string, m: BracketMaps, b: nat)
    requires MapsInRange(code, m) && b in m.braceOpenToClose
    ensures NamedParen(code, m.parenOpenToClose, b, b).Some? ==>
              code[NamedParen(code, m.parenOpenToClose, b, b).value.0] == '('
  {
    NamedParenRightmost(code, m.parenOpenToClose, b, b);
  }

  /** Each recorded name is a non-empty identifier that is neither a keyword nor an attribute. */
  lemma FunctionNameShape(code: string, m: BracketMaps, b: nat)
    requires MapsInRange(code, m) && b in m.braceOpenToClose
    ensures var name := FunctionAt(code, m, b).1;
      name.Some? ==>
        name.value != [] && !Refused(name.value) &&
        forall k :: 0 <= k < |name.value| ==> IsIdentChar(name.value[k])
  {
    var named := NamedParen(code, m.parenOpenToClose, b, b);
    if named.Some? {
      NamedParenRightmost(code, m.parenOpenToClose, b, b);
      NameBeforeIsIdentifier(code, named.value.0);
    }
  }

  /** Every entry `separate` records is the one for some top-level brace pair opening at `b` or later. */
  lemma {:induction false} FunctionsFromTopLevel(code: string, m: BracketMaps, b: nat)
    requires MapsInRange(code, m)
    ensures forall f :: f in Functions(code, m, b) ==>
              exists t :: b <= t < |code| && TopLevelBrace(m, t) && f == FunctionAt(code, m, t)
    decreases |code| - b
  {
    if b < |code| {
      FunctionsFromTopLevel(code, m, b + 1);
    }
  }

  /** Every top-level brace pair opening at `b` or later has its entry. */
  lemma {:induction false} TopLevelInFunctions(code: string, m: BracketMaps, b: nat)
    requires MapsInRange(code, m)
    ensures forall t :: b <= t < |code| && TopLevelBrace(m, t) ==> FunctionAt(code, m, t) in Functions(code, m, b)
    decreases |code| - b
  {
    if b < |code| {
      TopLevelInFunctions(code, m, b + 1);
      var rest := Functions(code, m, b + 1);
      assert Functions(code, m, b) == (if TopLevelBrace(m, b) then [FunctionAt(code, m, b)] else []) + rest;
      forall t | b <= t < |code| && TopLevelBrace(m, t)
        ensures FunctionAt(code, m, t) in Functions(code, m, b)
      {
        if t == b {
          assert Functions(code, m, b)[0] == FunctionAt(code, m, b);
        } else {
          assert FunctionAt(code, m, t) in rest;
        }
      }
    }
  }
}
