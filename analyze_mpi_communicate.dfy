/**
 * `AnalyzeMPIcommunicate.py`: reads the `MPI_Pack` and `MPI_Unpack` calls
 * of a C file, one per line, and reports where the unpack sequence does
 * not mirror the pack sequence (length, count, datatype, variable).
 * The file is given as its sequence of lines; printing is left out, and a
 * problem is a value rather than a formatted message.
 */
module AnalyzeMpiCommunicate {
  import opened Wrappers
  import opened PyStrings

  /** The `call_type` of a call. */
  datatype CallKind = Pack | Unpack

  /** `MPI_{call_type.title()}`. */
  function CallName(kind: CallKind): string {
    if kind == Pack then "MPI_Pack" else "MPI_Unpack"
  }

  /** The parenthesis balance of a piece of text: opened minus closed, read left to right. */
  function Depth(s: string): int
    decreases |s|
  {
    if s == [] then 0
    else
      var c := s[|s| - 1];
      Depth(s[..|s| - 1]) + (if c == '(' then 1 else if c == ')' then -1 else 0)
  }

  /** The balance counts the opening and the closing parentheses. */
  lemma {:induction false} DepthCounts(s: string)
    ensures Depth(s) == multiset(s)['('] as int - multiset(s)[')'] as int
    decreases |s|
  {
    if s != [] {
      DepthCounts(s[..|s| - 1]);
      assert s == s[..|s| - 1] + [s[|s| - 1]];
    }
  }

  /** No comma of `s` lies outside the parentheses opened within `s`. */
  predicate NoTopComma(s: string) {
    forall j :: 0 <= j < |s| && s[j] == ',' ==> Depth(s[..j]) != 0
  }

  /**
   * The state of the splitting loop (lines 116-129): the pieces closed so
   * far, unstripped, the piece being read and `paren_count`.
   */
  datatype Splitter = Splitter(done: seq<string>, current: string, depth: int)

  /** The splitter's state once it has read `s`. */
  function Scan(s: string): Splitter
    decreases |s|
  {
    if s == [] then Splitter([], [], 0)
    else
      var st := Scan(s[..|s| - 1]);
      var c := s[|s| - 1];
      if c == '(' then Splitter(st.done, st.current + [c], st.depth + 1)
      else if c == ')' then Splitter(st.done, st.current + [c], st.depth - 1)
      else if c == ',' && st.depth == 0 then Splitter(st.done + [st.current], [], st.depth)
      else Splitter(st.done, st.current + [c], st.depth)
  }

  /** The unstripped pieces of `s`: the closed ones and the last. */
  function RawPieces(s: string): (r: seq<string>)
    ensures |r| >= 1
  {
    Scan(s).done + [Scan(s).current]
  }

  /** Reading one more character: the splitter's step (lines 120-129). */
  lemma ScanStep(s: string)
    requires s != []
    ensures var st := Scan(s[..|s| - 1]); var c := s[|s| - 1];
            if c == ',' && st.depth == 0 then Scan(s) == Splitter(st.done + [st.current], [], 0)
            else Scan(s).done == st.done && Scan(s).current == st.current + [c]
  {
    var st := Scan(s[..|s| - 1]);
    var c := s[|s| - 1];
    if c == ',' && st.depth == 0 {
      assert Scan(s) == Splitter(st.done + [st.current], [], 0);
    } else if c == '(' || c == ')' {
      assert Scan(s).current == st.current + [c];
    } else {
      assert Scan(s) == Splitter(st.done, st.current + [c], st.depth);
    }
  }

  /** Closing a piece at a comma: the joined text gains the comma. */
  lemma JoinClose(done: seq<string>, current: string, text: string)
    requires Join(done + [current], ",") == text
    ensures Join(done + [current] + [[]], ",") == text + ","
  {
    JoinSnoc(done + [current], [], ",");
  }

  /** Extending the piece being read: the joined text gains the character. */
  lemma JoinExtend(done: seq<string>, current: string, c: char, text: string)
    requires Join(done + [current], ",") == text
    ensures Join(done + [current + [c]], ",") == text + [c]
  {
    JoinSnoc(done, current, ",");
    JoinSnoc(done, current + [c], ",");
  }

  /** Joining the pieces with commas gives the text back. */
  lemma {:induction false} ScanJoin(s: string)
    ensures Join(RawPieces(s), ",") == s
    decreases |s|
  {
    if s != [] {
      var front := s[..|s| - 1];
      var c := s[|s| - 1];
      var st := Scan(front);
      assert s == front + [c];
      ScanJoin(front);
      ScanStep(s);
      if c == ',' && st.depth == 0 {
        assert RawPieces(s) == st.done + [st.current] + [[]];
        JoinClose(st.done, st.current, front);
      } else {
        assert RawPieces(s) == st.done + [st.current + [c]];
        JoinExtend(st.done, st.current, c, front);
      }
    }
  }

  /** `paren_count` is the balance of the piece being read, and every closed piece is balanced. */
  lemma {:induction false} ScanBalance(s: string)
    ensures Scan(s).depth == Depth(Scan(s).current)
    ensures forall k :: 0 <= k < |Scan(s).done| ==> Depth(Scan(s).done[k]) == 0
    decreases |s|
  {
    if s != [] {
      var front := s[..|s| - 1];
      var c := s[|s| - 1];
      var st := Scan(front);
      ScanBalance(front);
      ScanStep(s);
      if !(c == ',' && st.depth == 0) {
        var cur := st.current + [c];
        assert cur[..|cur| - 1] == st.current;
      }
    }
  }

  /** A comma outside parentheses never stays inside a piece. */
  lemma {:induction false} ScanNoTopComma(s: string)
    ensures forall k :: 0 <= k < |Scan(s).done| ==> NoTopComma(Scan(s).done[k])
    ensures NoTopComma(Scan(s).current)
    decreases |s|
  {
    if s != [] {
      var front := s[..|s| - 1];
      var c := s[|s| - 1];
      var st := Scan(front);
      ScanNoTopComma(front);
      ScanBalance(front);
      ScanStep(s);
      if !(c == ',' && st.depth == 0) {
        var cur := st.current + [c];
        forall j | 0 <= j < |cur| && cur[j] == ','
          ensures Depth(cur[..j]) != 0
        {
          if j < |st.current| {
            assert cur[..j] == st.current[..j];
          } else {
            assert cur[..j] == st.current;
          }
        }
      }
    }
  }

  /**
   * The splitter cuts `s` at exactly the commas outside parentheses: the
   * pieces joined with commas give `s` back, every closed piece is
   * balanced, and no piece holds a comma outside its own parentheses.
   */
  lemma ScanPieces(s: string)
    ensures Join(RawPieces(s), ",") == s
    ensures forall k :: 0 <= k < |RawPieces(s)| - 1 ==> Depth(RawPieces(s)[k]) == 0
    ensures forall k :: 0 <= k < |RawPieces(s)| ==> NoTopComma(RawPieces(s)[k])
  {
    ScanJoin(s);
    ScanBalance(s);
    ScanNoTopComma(s);
    var raw := RawPieces(s);
    assert forall k :: 0 <= k < |raw| - 1 ==> raw[k] == Scan(s).done[k];
  }

  /** The stripped pieces, in order. */
  function StripEach(ps: seq<string>): (r: seq<string>)
    ensures |r| == |ps|
    decreases |ps|
  {
    if ps == [] then [] else StripEach(ps[..|ps| - 1]) + [Strip(ps[|ps| - 1])]
  }

  lemma {:induction false} StripEachAt(ps: seq<string>, k: nat)
    requires k < |ps|
    ensures StripEach(ps)[k] == Strip(ps[k])
    decreases |ps|
  {
    if k < |ps| - 1 {
      StripEachAt(ps[..|ps| - 1], k);
    }
  }

  /** The `parts` of `parse_mpi_call` for `content` (lines 116-132). */
  function TopLevelParts(content: string): seq<string> {
    var st := Scan(content);
    StripEach(st.done) + (if Strip(st.current) != [] then [Strip(st.current)] else [])
  }

  /** The depth-aware comma split of `parse_mpi_call` (lines 116-132). */
  method SplitTopLevel(content: string) returns (parts: seq<string>)
    ensures parts == TopLevelParts(content)
  {
    parts := [];
    var current := "";
    var parenCount := 0;
    var i := 0;
    while i < |content|
      invariant i <= |content|
      invariant Scan(content[..i]).current == current && Scan(content[..i]).depth == parenCount
      invariant parts == StripEach(Scan(content[..i]).done)
    {
      var c := content[i];
      assert content[..i + 1][..i] == content[..i];
      ghost var done := Scan(content[..i]).done;
      if c == '(' {
        parenCount := parenCount + 1;
        current := current + [c];
      } else if c == ')' {
        parenCount := parenCount - 1;
        current := current + [c];
      } else if c == ',' && parenCount == 0 {
        assert (done + [current])[..|done|] == done;
        parts := parts + [Strip(current)];
        current := "";
      } else {
        current := current + [c];
      }
      i := i + 1;
    }
    assert content[..i] == content;
    if Strip(current) != [] {
      parts := parts + [Strip(current)];
    }
  }

  /**
   * The parts are the stripped raw pieces, in order; the last raw piece
   * gives no part when it is blank.
   */
  lemma TopLevelPartsPieces(content: string)
    ensures var parts := TopLevelParts(content);
            var raw := RawPieces(content);
            && |parts| == (if Strip(raw[|raw| - 1]) != [] then |raw| else |raw| - 1)
            && forall k :: 0 <= k < |parts| ==> parts[k] == Strip(raw[k])
  {
    var st := Scan(content);
    forall k | 0 <= k < |TopLevelParts(content)|
      ensures TopLevelParts(content)[k] == Strip(RawPieces(content)[k])
    {
      if k < |st.done| {
        StripEachAt(st.done, k);
      }
    }
  }

  /** The argument list once `MPI_Pack`/`MPI_Unpack`, the parentheses and `;` are stripped (lines 112-113). */
  function Content(line: string, kind: CallKind): string {
    Strip(StripChars(StripChars(Strip(RemoveAll(line, CallName(kind))), {'('}), {')', ';'}))
  }

  /** Where the call's buffer, count and datatype stand among its arguments. */
  function FirstField(kind: CallKind): nat {
    if kind == Pack then 0 else 3
  }

  /** What `parse_mpi_call` returns (lines 108-153). */
  function CallFields(line: string, kind: CallKind): (string, string, string) {
    var parts := TopLevelParts(Content(line, kind));
    var first := FirstField(kind);
    if |parts| >= first + 3 then (parts[first], parts[first + 1], parts[first + 2]) else ("", "", "")
  }

  /** `parse_mpi_call` (lines 108-153). */
  method ParseMpiCall(line: string, kind: CallKind) returns (variable: string, count: string, dataType: string)
    ensures (variable, count, dataType) == CallFields(line, kind)
  {
    var content := Strip(RemoveAll(line, CallName(kind)));
    content := Strip(StripChars(StripChars(content, {'('}), {')', ';'}));
    var parts := SplitTopLevel(content);
    if kind == Pack {
      if |parts| >= 3 {
        return parts[0], parts[1], parts[2];
      }
    } else {
      if |parts| >= 6 {
        return parts[3], parts[4], parts[5];
      }
    }
    return "", "", "";
  }

  /**
   * A pack call gives its first three top-level arguments and an unpack
   * call its fourth to sixth, stripped; with fewer arguments all three
   * fields are empty.
   */
  lemma CallFieldsPieces(line: string, kind: CallKind)
    ensures var raw := RawPieces(Content(line, kind));
            var first := FirstField(kind);
            var enough := first + 2 < |raw| - 1 || (first + 2 == |raw| - 1 && Strip(raw[first + 2]) != []);
            CallFields(line, kind) ==
              if enough then (Strip(raw[first]), Strip(raw[first + 1]), Strip(raw[first + 2])) else ("", "", "")
  {
    TopLevelPartsPieces(Content(line, kind));
  }

  /** Every field of a call is stripped and holds no comma outside parentheses. */
  lemma CallFieldsTopLevel(line: string, kind: CallKind)
    ensures var raw := RawPieces(Content(line, kind));
            var first := FirstField(kind);
            CallFields(line, kind).0 != [] ==>
              && Join(raw, ",") == Content(line, kind)
              && first + 2 < |raw|
              && NoTopComma(raw[first]) && NoTopComma(raw[first + 1]) && NoTopComma(raw[first + 2])
  {
    var content := Content(line, kind);
    CallFieldsPieces(line, kind);
    ScanPieces(content);
  }

  /**
   * `var` with every `&` and then every `*` removed (line 161): neither is
   * left, and every other character occurs as often as before.
   */
  function Unaddressed(v: string): (r: string)
    ensures '&' !in r && '*' !in r && |r| <= |v|
    ensures forall d :: d != '&' && d != '*' ==> multiset(r)[d] == multiset(v)[d]
  {
    RemoveChar(RemoveChar(v, '&'), '*')
  }

  /** `normalize_variable` (lines 155-169). */
  function NormalizeVariable(v: string): string {
    if v == [] then v else Shortened(Unaddressed(v))
  }

  /** Lines 164-169: the name cut down to its last field, once `&` and `*` are gone. */
  function Shortened(w: string): string {
    if Contains(w, "cell->") then AfterLast(w, "->")
    else if Contains(w, "plasmamain[") && Contains(w, "].") then AfterLast(w, "].")
    else w
  }

  /**
   * `r` is the field of `w` after its last `sep`: a suffix that holds no
   * `sep` and that a copy of `sep` immediately precedes.
   */
  predicate FieldAfter(w: string, r: string, sep: string) {
    && |r| + |sep| <= |w|
    && w[|w| - |r| - |sep|..|w| - |r|] == sep
    && r == w[|w| - |r|..]
    && !Contains(r, sep)
  }

  /** The shortened name is the whole name, or the field after the last `->` or `].`. */
  lemma ShortenedSuffix(w: string)
    ensures var r := Shortened(w);
            && |r| <= |w| && r == w[|w| - |r|..]
            && (Contains(w, "cell->") ==> FieldAfter(w, r, "->"))
            && (!Contains(w, "cell->") && Contains(w, "plasmamain[") && Contains(w, "].") ==> FieldAfter(w, r, "]."))
            && (!Contains(w, "cell->") && !(Contains(w, "plasmamain[") && Contains(w, "].")) ==> r == w)
  {
    if Contains(w, "cell->") {
      CellHasArrow(w);
      SuffixAfterLast(w, "->");
    } else if Contains(w, "plasmamain[") && Contains(w, "].") {
      SuffixAfterLast(w, "].");
    } else {
      assert w[|w| - |w|..] == w;
    }
  }

  /** A name holding `cell->` holds `->`. */
  lemma CellHasArrow(w: string)
    requires Contains(w, "cell->")
    ensures Contains(w, "->")
  {
    ContainsAt(w, "cell->");
    ContainsAt(w, "->");
    var i :| OccursAt(w, "cell->", i);
    assert w[i + 4..i + 6] == w[i..i + 6][4..6] == "->";
    assert OccursAt(w, "->", i + 4);
  }

  /**
   * The normalised name is empty for an empty name; otherwise, with `w`
   * the name without `&` and `*`, it is the field of `w` after the last
   * `->` when `cell->` occurs, else the field after the last `].` when
   * `plasmamain[` and `].` occur, else all of `w`.
   */
  lemma NormalizeVariableMeaning(v: string)
    ensures v == [] ==> NormalizeVariable(v) == []
    ensures var r := NormalizeVariable(v);
            var w := Unaddressed(v);
            v != [] ==>
              && '&' !in r && '*' !in r
              && (Contains(w, "cell->") ==> FieldAfter(w, r, "->"))
              && (!Contains(w, "cell->") && Contains(w, "plasmamain[") && Contains(w, "].") ==> FieldAfter(w, r, "]."))
              && (!Contains(w, "cell->") && !(Contains(w, "plasmamain[") && Contains(w, "].")) ==> r == w)
  {
    if v != [] {
      var w := Unaddressed(v);
      ShortenedSuffix(w);
      SuffixChars(w, Shortened(w));
    }
  }

  /** A suffix holds no character the whole string lacks. */
  lemma SuffixChars(w: string, r: string)
    requires |r| <= |w| && r == w[|w| - |r|..]
    ensures forall x :: x in r ==> x in w
  {
    forall x | x in r
      ensures x in w
    {
      var k :| 0 <= k < |r| && r[k] == x;
      assert w[|w| - |r| + k] == x;
    }
  }

  /** One call that `analyze_mpi_file` collects (the `MPICall` record). */
  datatype Call = Call(kind: CallKind, lineNumber: nat, variable: string, count: string, dataType: string)

  /** The stripped line starts a call of this kind: `MPI_Pack (` or `MPI_Pack(`, likewise for unpack. */
  predicate Opens(line: string, kind: CallKind) {
    StartsWith(line, CallName(kind) + " (") || StartsWith(line, CallName(kind) + "(")
  }

  /** No line starts both kinds of call, so the `elif` of line 37 excludes nothing. */
  lemma OpensExclusive(line: string)
    ensures !(Opens(line, Pack) && Opens(line, Unpack))
  {
    if Opens(line, Pack) && |line| > 4 {
      assert line[4] == 'P';
    }
  }

  /** The call that line `number` (counted from 1) contributes, if any (lines 30-40). */
  function LineCall(line: string, number: nat, kind: CallKind): Option<Call> {
    var stripped := Strip(line);
    var fields := CallFields(stripped, kind);
    if Opens(stripped, kind) && fields.0 != [] then Some(Call(kind, number, fields.0, fields.1, fields.2))
    else None
  }

  /** A line's call, if any, carries the line's number and the kind asked for. */
  lemma LineCallNumbered(line: string, number: nat, kind: CallKind)
    ensures LineCall(line, number, kind).Some? ==>
              LineCall(line, number, kind).value.lineNumber == number && LineCall(line, number, kind).value.kind == kind
  {
  }

  /** What each line contributes, line by line. */
  function LineCalls(lines: seq<string>, kind: CallKind): (found: seq<Option<Call>>)
    ensures |found| == |lines|
    decreases |lines|
  {
    if lines == [] then []
    else LineCalls(lines[..|lines| - 1], kind) + [LineCall(lines[|lines| - 1], |lines|, kind)]
  }

  lemma {:induction false} LineCallsAt(lines: seq<string>, kind: CallKind, n: nat)
    requires n < |lines|
    ensures LineCalls(lines, kind)[n] == LineCall(lines[n], n + 1, kind)
    decreases |lines|
  {
    if n < |lines| - 1 {
      LineCallsAt(lines[..|lines| - 1], kind, n);
    }
  }

  /** The calls found, in order. */
  function Collected(found: seq<Option<Call>>): (calls: seq<Call>)
    ensures |calls| <= |found|
    decreases |found|
  {
    if found == [] then []
    else
      var last := found[|found| - 1];
      Collected(found[..|found| - 1]) + (if last.Some? then [last.value] else [])
  }

  /** The call found at position `n`, if any, names line `n + 1`. */
  predicate Numbered(found: seq<Option<Call>>) {
    forall n :: 0 <= n < |found| && found[n].Some? ==> found[n].value.lineNumber == n + 1
  }

  /** Collecting one more line. */
  lemma CollectedSnoc(found: seq<Option<Call>>, i: nat)
    requires i < |found|
    ensures Collected(found[..i + 1]) == Collected(found[..i]) + (if found[i].Some? then [found[i].value] else [])
  {
    assert found[..i + 1][..i] == found[..i];
  }

  /** Dropping the last line keeps the numbering. */
  lemma NumberedFront(found: seq<Option<Call>>)
    requires Numbered(found) && found != []
    ensures Numbered(found[..|found| - 1])
  {
    assert forall n :: 0 <= n < |found| - 1 ==> found[..|found| - 1][n] == found[n];
  }

  /** Each call collected is the one found on its line. */
  lemma {:induction false} CollectedSound(found: seq<Option<Call>>)
    requires Numbered(found)
    ensures forall c :: c in Collected(found) ==> 1 <= c.lineNumber <= |found| && found[c.lineNumber - 1] == Some(c)
    decreases |found|
  {
    if found != [] {
      var front := found[..|found| - 1];
      NumberedFront(found);
      CollectedSound(front);
      forall c | c in Collected(found)
        ensures 1 <= c.lineNumber <= |found| && found[c.lineNumber - 1] == Some(c)
      {
        if c in Collected(front) {
          assert front[c.lineNumber - 1] == found[c.lineNumber - 1];
        }
      }
    }
  }

  /** The calls collected are in the order of their lines. */
  lemma {:induction false} CollectedOrdered(found: seq<Option<Call>>)
    requires Numbered(found)
    ensures forall i, j :: 0 <= i < j < |Collected(found)| ==> Collected(found)[i].lineNumber < Collected(found)[j].lineNumber
    decreases |found|
  {
    if found != [] {
      var front := found[..|found| - 1];
      NumberedFront(found);
      CollectedOrdered(front);
      CollectedSound(front);
      var before := Collected(front);
      var calls := Collected(found);
      assert forall k :: 0 <= k < |before| ==> calls[k] == before[k] && before[k] in before;
      if |calls| > |before| {
        assert calls[|before|].lineNumber == |found|;
      }
    }
  }

  /** Every call found is collected. */
  lemma {:induction false} CollectedComplete(found: seq<Option<Call>>)
    ensures forall n :: 0 <= n < |found| && found[n].Some? ==> found[n].value in Collected(found)
    decreases |found|
  {
    if found != [] {
      var front := found[..|found| - 1];
      CollectedComplete(front);
      assert forall n :: 0 <= n < |front| ==> front[n] == found[n];
    }
  }

  /** The calls of one kind among `lines`, in file order (lines 29-40). */
  function CallsOf(lines: seq<string>, kind: CallKind): seq<Call> {
    Collected(LineCalls(lines, kind))
  }

  /** The call found on line `n + 1`, if any, names that line. */
  lemma LineCallsNumbered(lines: seq<string>, kind: CallKind)
    ensures Numbered(LineCalls(lines, kind))
  {
    var found := LineCalls(lines, kind);
    forall n | 0 <= n < |found| && found[n].Some?
      ensures found[n].value.lineNumber == n + 1
    {
      LineCallsAt(lines, kind, n);
      LineCallNumbered(lines[n], n + 1, kind);
    }
  }

  /**
   * The calls collected are exactly those the lines contribute: each once, with its line number counted from 1, in
   * file order.
   */
  lemma CallsOfMeaning(lines: seq<string>, kind: CallKind)
    ensures forall c :: c in CallsOf(lines, kind) ==>
              1 <= c.lineNumber <= |lines| && LineCalls(lines, kind)[c.lineNumber - 1] == Some(c)
    ensures forall i, j :: 0 <= i < j < |CallsOf(lines, kind)| ==> CallsOf(lines, kind)[i].lineNumber < CallsOf(lines, kind)[j].lineNumber
    ensures forall n :: 0 <= n < |lines| && LineCalls(lines, kind)[n].Some? ==>
              LineCalls(lines, kind)[n].value in CallsOf(lines, kind)
  {
    var found := LineCalls(lines, kind);
    LineCallsNumbered(lines, kind);
    CollectedSound(found);
    CollectedOrdered(found);
    CollectedComplete(found);
  }

  /** The work on one line of the loop of lines 29-40. */
  method CollectLine(lines: seq<string>, i: nat) returns (pack: Option<Call>, unpack: Option<Call>)
    requires i < |lines|
    ensures pack == LineCalls(lines, Pack)[i] && unpack == LineCalls(lines, Unpack)[i]
  {
    LineCallsAt(lines, Pack, i);
    LineCallsAt(lines, Unpack, i);
    var line := Strip(lines[i]);
    OpensExclusive(line);
    pack, unpack := None, None;
    if Opens(line, Pack) {
      var variable, count, dataType := ParseMpiCall(line, Pack);
      if variable != [] {
        pack := Some(Call(Pack, i + 1, variable, count, dataType));
      }
    } else if Opens(line, Unpack) {
      var variable, count, dataType := ParseMpiCall(line, Unpack);
      if variable != [] {
        unpack := Some(Call(Unpack, i + 1, variable, count, dataType));
      }
    }
  }

  /** The loop of lines 29-40: the pack calls and the unpack calls. */
  method CollectCalls(lines: seq<string>) returns (packCalls: seq<Call>, unpackCalls: seq<Call>)
    ensures packCalls == CallsOf(lines, Pack) && unpackCalls == CallsOf(lines, Unpack)
  {
    packCalls := [];
    unpackCalls := [];
    ghost var packs := LineCalls(lines, Pack);
    ghost var unpacks := LineCalls(lines, Unpack);
    var i := 0;
    while i < |lines|
      invariant i <= |lines|
      invariant packCalls == Collected(packs[..i]) && unpackCalls == Collected(unpacks[..i])
    {
      var pack, unpack := CollectLine(lines, i);
      CollectedSnoc(packs, i);
      CollectedSnoc(unpacks, i);
      if pack.Some? {
        packCalls := packCalls + [pack.value];
      }
      if unpack.Some? {
        unpackCalls := unpackCalls + [unpack.value];
      }
      i := i + 1;
    }
    assert packs[..i] == packs && unpacks[..i] == unpacks;
  }

  /** One entry of `problems`, by the message it would print. */
  datatype Problem =
    | MajorError(packs: nat, unpacks: nat)
    | CountMismatch(position: nat, packLine: nat, packCount: string, unpackLine: nat, unpackCount: string)
    | TypeMismatch(position: nat, packLine: nat, packType: string, unpackLine: nat, unpackType: string)
    | Typo(position: nat, unpackLine: nat)
    | VariableMismatch(position: nat, packLine: nat, packVariable: string, unpackLine: nat, unpackVariable: string)

  /** The known misspelling that line 72 looks for. */
  predicate TypoPair(packVariable: string, unpackVariable: string) {
    Contains(packVariable, "ave_freq_norm") && Contains(unpackVariable, "ave_freq_nrom")
  }

  /** The problems found at compared position `i` (counted from 0; lines 53-79). */
  function PositionProblems(i: nat, pack: Call, unpack: Call): seq<Problem> {
    CountProblems(i, pack, unpack) + TypeProblems(i, pack, unpack) + VariableProblems(i, pack, unpack)
  }

  /** Lines 61-64: differing counts. */
  function CountProblems(i: nat, pack: Call, unpack: Call): seq<Problem> {
    if pack.count != unpack.count
    then [CountMismatch(i + 1, pack.lineNumber, pack.count, unpack.lineNumber, unpack.count)] else []
  }

  /** Lines 66-69: differing datatypes. */
  function TypeProblems(i: nat, pack: Call, unpack: Call): seq<Problem> {
    if pack.dataType != unpack.dataType
    then [TypeMismatch(i + 1, pack.lineNumber, pack.dataType, unpack.lineNumber, unpack.dataType)] else []
  }

  /** Lines 72-79: the known typo, or else differing normalised variables. */
  function VariableProblems(i: nat, pack: Call, unpack: Call): seq<Problem> {
    if TypoPair(pack.variable, unpack.variable) then [Typo(i + 1, unpack.lineNumber)]
    else if NormalizeVariable(pack.variable) != NormalizeVariable(unpack.variable)
    then [VariableMismatch(i + 1, pack.lineNumber, pack.variable, unpack.lineNumber, unpack.variable)]
    else []
  }

  /** The pack and unpack calls at one position agree in every respect that is checked. */
  predicate Agree(pack: Call, unpack: Call) {
    && pack.count == unpack.count
    && pack.dataType == unpack.dataType
    && !TypoPair(pack.variable, unpack.variable)
    && NormalizeVariable(pack.variable) == NormalizeVariable(unpack.variable)
  }

  /** Each problem found at position `i` names position `i + 1`. */
  lemma PositionProblemsPositioned(i: nat, p: Call, u: Call)
    ensures AllAt(PositionProblems(i, p, u), i + 1)
  {
  }

  /** Position `i` raises no problem exactly when its two calls agree. */
  lemma PositionProblemsEmpty(i: nat, p: Call, u: Call)
    ensures PositionProblems(i, p, u) == [] <==> Agree(p, u)
  {
  }

  /** Each kind of problem is raised at position `i` exactly when its condition holds. */
  lemma PositionProblemsKinds(i: nat, p: Call, u: Call)
    ensures CountMismatch(i + 1, p.lineNumber, p.count, u.lineNumber, u.count) in PositionProblems(i, p, u) <==>
              p.count != u.count
    ensures TypeMismatch(i + 1, p.lineNumber, p.dataType, u.lineNumber, u.dataType) in PositionProblems(i, p, u) <==>
              p.dataType != u.dataType
    ensures Typo(i + 1, u.lineNumber) in PositionProblems(i, p, u) <==> TypoPair(p.variable, u.variable)
    ensures VariableMismatch(i + 1, p.lineNumber, p.variable, u.lineNumber, u.variable) in PositionProblems(i, p, u) <==>
              !TypoPair(p.variable, u.variable) && NormalizeVariable(p.variable) != NormalizeVariable(u.variable)
  {
  }

  /** The problems found at the first `n` positions, position by position. */
  function Findings(packs: seq<Call>, unpacks: seq<Call>, n: nat): (ff: seq<seq<Problem>>)
    requires n <= |packs| && n <= |unpacks|
    ensures |ff| == n
    decreases n
  {
    if n == 0 then [] else Findings(packs, unpacks, n - 1) + [PositionProblems(n - 1, packs[n - 1], unpacks[n - 1])]
  }

  lemma {:induction false} FindingsAt(packs: seq<Call>, unpacks: seq<Call>, n: nat, i: nat)
    requires i < n <= |packs| && n <= |unpacks|
    ensures Findings(packs, unpacks, n)[i] == PositionProblems(i, packs[i], unpacks[i])
    decreases n
  {
    if i < n - 1 {
      FindingsAt(packs, unpacks, n - 1, i);
    }
  }

  /** The problem lists one after the other. */
  function Flatten(ff: seq<seq<Problem>>): seq<Problem>
    decreases |ff|
  {
    if ff == [] then [] else Flatten(ff[..|ff| - 1]) + ff[|ff| - 1]
  }

  /** Every problem of entry `i` names position `i + 1`. */
  predicate Positioned(ff: seq<seq<Problem>>) {
    forall i :: 0 <= i < |ff| ==> AllAt(ff[i], i + 1)
  }

  /** Every problem of `ps` is a per-position problem naming position `position`. */
  predicate AllAt(ps: seq<Problem>, position: int) {
    forall q :: q in ps ==> !q.MajorError? && q.position == position
  }

  lemma {:induction false} FlattenPositions(ff: seq<seq<Problem>>)
    requires Positioned(ff)
    ensures forall q :: q in Flatten(ff) ==> !q.MajorError? && 1 <= q.position <= |ff|
    decreases |ff|
  {
    if ff != [] {
      assert Positioned(ff[..|ff| - 1]) by {
        assert forall i :: 0 <= i < |ff| - 1 ==> ff[..|ff| - 1][i] == ff[i];
      }
      FlattenPositions(ff[..|ff| - 1]);
    }
  }

  /** A problem naming position `i + 1` is among all of them exactly when it is among those of entry `i`. */
  lemma {:induction false} FlattenAt(ff: seq<seq<Problem>>, i: nat, q: Problem)
    requires Positioned(ff) && i < |ff| && !q.MajorError? && q.position == i + 1
    ensures q in Flatten(ff) <==> q in ff[i]
    decreases |ff|
  {
    var front := ff[..|ff| - 1];
    assert Positioned(front) by {
      assert forall j :: 0 <= j < |front| ==> front[j] == ff[j];
    }
    if i == |ff| - 1 {
      FlattenPositions(front);
    } else {
      FlattenAt(front, i, q);
      assert front[i] == ff[i];
    }
  }

  lemma {:induction false} FlattenEmpty(ff: seq<seq<Problem>>)
    ensures Flatten(ff) == [] <==> forall i :: 0 <= i < |ff| ==> ff[i] == []
    decreases |ff|
  {
    if ff != [] {
      FlattenEmpty(ff[..|ff| - 1]);
      assert forall i :: 0 <= i < |ff| - 1 ==> ff[..|ff| - 1][i] == ff[i];
    }
  }

  function Min(a: nat, b: nat): nat {
    if a < b then a else b
  }

  /** The MAJOR ERROR that opens the list when the two lists differ in length (lines 45-48). */
  function Head(packs: seq<Call>, unpacks: seq<Call>): seq<Problem> {
    if |packs| != |unpacks| then [MajorError(|packs|, |unpacks|)] else []
  }

  /** The `problems` list of `analyze_mpi_file` (lines 45-79). */
  function Problems(packs: seq<Call>, unpacks: seq<Call>): seq<Problem> {
    Head(packs, unpacks) + Flatten(Findings(packs, unpacks, Min(|packs|, |unpacks|)))
  }

  /** The body of the comparison loop (lines 53-79): the problems found at position `i`. */
  method CheckPosition(i: nat, pack: Call, unpack: Call) returns (found: seq<Problem>)
    ensures found == PositionProblems(i, pack, unpack)
  {
    found := [];
    var packVar := NormalizeVariable(pack.variable);
    var unpackVar := NormalizeVariable(unpack.variable);
    if pack.count != unpack.count {
      found := found + [CountMismatch(i + 1, pack.lineNumber, pack.count, unpack.lineNumber, unpack.count)];
    }
    assert found == CountProblems(i, pack, unpack);
    if pack.dataType != unpack.dataType {
      found := found + [TypeMismatch(i + 1, pack.lineNumber, pack.dataType, unpack.lineNumber, unpack.dataType)];
    }
    assert found == CountProblems(i, pack, unpack) + TypeProblems(i, pack, unpack);
    if TypoPair(pack.variable, unpack.variable) {
      found := found + [Typo(i + 1, unpack.lineNumber)];
    } else if packVar != unpackVar {
      found := found + [VariableMismatch(i + 1, pack.lineNumber, pack.variable, unpack.lineNumber, unpack.variable)];
    }
  }

  /** Adding the problems of one more position. */
  lemma FindingsSnoc(packs: seq<Call>, unpacks: seq<Call>, i: nat)
    requires i < |packs| && i < |unpacks|
    ensures Flatten(Findings(packs, unpacks, i + 1)) == Flatten(Findings(packs, unpacks, i)) + PositionProblems(i, packs[i], unpacks[i])
  {
    assert Findings(packs, unpacks, i + 1)[..i] == Findings(packs, unpacks, i);
  }

  /** One step of the comparison loop, with the major-error head in front. */
  lemma FindingsStep(head: seq<Problem>, packs: seq<Call>, unpacks: seq<Call>, i: nat)
    requires i < |packs| && i < |unpacks|
    ensures head + Flatten(Findings(packs, unpacks, i + 1))
         == head + Flatten(Findings(packs, unpacks, i)) + PositionProblems(i, packs[i], unpacks[i])
  {
    FindingsSnoc(packs, unpacks, i);
    var b := Flatten(Findings(packs, unpacks, i));
    var c := PositionProblems(i, packs[i], unpacks[i]);
    assert head + (b + c) == head + b + c;
  }

  /** The comparison loop of lines 45-79. */
  method FindProblems(packs: seq<Call>, unpacks: seq<Call>) returns (problems: seq<Problem>)
    ensures problems == Problems(packs, unpacks)
  {
    problems := StartProblems(packs, unpacks);
    ghost var head := problems;
    var maxCompare := Min(|packs|, |unpacks|);
    var i := 0;
    while i < maxCompare
      invariant i <= maxCompare
      invariant problems == head + Flatten(Findings(packs, unpacks, i))
    {
      problems := ComparePosition(problems, head, packs, unpacks, i);
      i := i + 1;
    }
  }

  /** The length check before the comparison loop (lines 45-48). */
  method StartProblems(packs: seq<Call>, unpacks: seq<Call>) returns (problems: seq<Problem>)
    ensures problems == Head(packs, unpacks)
  {
    problems := [];
    if |packs| != |unpacks| {
      problems := problems + [MajorError(|packs|, |unpacks|)];
    }
  }

  /** One pass of the comparison loop: the problems of position `i` are appended. */
  method ComparePosition(problems: seq<Problem>, ghost head: seq<Problem>, packs: seq<Call>, unpacks: seq<Call>, i: nat)
    returns (problems': seq<Problem>)
    requires i < |packs| && i < |unpacks|
    requires problems == head + Flatten(Findings(packs, unpacks, i))
    ensures problems' == head + Flatten(Findings(packs, unpacks, i + 1))
  {
    var found := CheckPosition(i, packs[i], unpacks[i]);
    FindingsStep(head, packs, unpacks, i);
    problems' := problems + found;
  }

  /** `analyze_mpi_file` without its printing: the problems of the file's lines. */
  method AnalyzeMpiFile(lines: seq<string>) returns (problems: seq<Problem>)
    ensures problems == Problems(CallsOf(lines, Pack), CallsOf(lines, Unpack))
  {
    var packCalls, unpackCalls := CollectCalls(lines);
    problems := FindProblems(packCalls, unpackCalls);
  }

  lemma FindingsPositioned(packs: seq<Call>, unpacks: seq<Call>, n: nat)
    requires n <= |packs| && n <= |unpacks|
    ensures Positioned(Findings(packs, unpacks, n))
  {
    var ff := Findings(packs, unpacks, n);
    forall i | 0 <= i < |ff|
      ensures AllAt(ff[i], i + 1)
    {
      FindingsAt(packs, unpacks, n, i);
      PositionProblemsPositioned(i, packs[i], unpacks[i]);
    }
  }

  /**
   * At every compared position, each kind of problem is reported exactly
   * when its condition holds: differing counts, differing datatypes, the
   * known typo, and otherwise differing normalised variables.
   */
  lemma ProblemsAt(packs: seq<Call>, unpacks: seq<Call>, i: nat)
    requires i < |packs| && i < |unpacks|
    ensures var p := packs[i]; var u := unpacks[i]; var problems := Problems(packs, unpacks);
            && (CountMismatch(i + 1, p.lineNumber, p.count, u.lineNumber, u.count) in problems <==> p.count != u.count)
            && (TypeMismatch(i + 1, p.lineNumber, p.dataType, u.lineNumber, u.dataType) in problems <==> p.dataType != u.dataType)
            && (Typo(i + 1, u.lineNumber) in problems <==> TypoPair(p.variable, u.variable))
            && (VariableMismatch(i + 1, p.lineNumber, p.variable, u.lineNumber, u.variable) in problems <==>
                  !TypoPair(p.variable, u.variable) && NormalizeVariable(p.variable) != NormalizeVariable(u.variable))
  {
    var p := packs[i];
    var u := unpacks[i];
    var m := Min(|packs|, |unpacks|);
    var ff := Findings(packs, unpacks, m);
    FindingsPositioned(packs, unpacks, m);
    FindingsAt(packs, unpacks, m, i);
    PositionProblemsKinds(i, p, u);
    FlattenAt(ff, i, CountMismatch(i + 1, p.lineNumber, p.count, u.lineNumber, u.count));
    FlattenAt(ff, i, TypeMismatch(i + 1, p.lineNumber, p.dataType, u.lineNumber, u.dataType));
    FlattenAt(ff, i, Typo(i + 1, u.lineNumber));
    FlattenAt(ff, i, VariableMismatch(i + 1, p.lineNumber, p.variable, u.lineNumber, u.variable));
  }

  /**
   * A length mismatch gives exactly one MAJOR ERROR, reported first, and
   * every other problem names a position that both lists have.
   */
  lemma MajorErrorOnce(packs: seq<Call>, unpacks: seq<Call>)
    ensures var problems := Problems(packs, unpacks);
            forall k :: 0 <= k < |problems| ==>
              && (problems[k].MajorError? <==> k == 0 && |packs| != |unpacks|)
              && (!problems[k].MajorError? ==> 1 <= problems[k].position <= Min(|packs|, |unpacks|))
  {
    var m := Min(|packs|, |unpacks|);
    var ff := Findings(packs, unpacks, m);
    FindingsPositioned(packs, unpacks, m);
    FlattenPositions(ff);
    var flat := Flatten(ff);
    assert forall k :: 0 <= k < |flat| ==> flat[k] in flat;
  }

  /**
   * The success message is printed exactly when the two lists have the
   * same length and agree position by position (lines 86-87).
   */
  lemma ProblemsEmpty(packs: seq<Call>, unpacks: seq<Call>)
    ensures Problems(packs, unpacks) == [] <==>
              |packs| == |unpacks| && forall i :: 0 <= i < |packs| ==> Agree(packs[i], unpacks[i])
  {
    var m := Min(|packs|, |unpacks|);
    var ff := Findings(packs, unpacks, m);
    FlattenEmpty(ff);
    forall i | 0 <= i < m
      ensures ff[i] == [] <==> Agree(packs[i], unpacks[i])
    {
      FindingsAt(packs, unpacks, m, i);
      PositionProblemsEmpty(i, packs[i], unpacks[i]);
    }
  }
}
