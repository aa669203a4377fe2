/**
 Re-anchoring an annotation: the lines it was written against are sliced out of a file as a snippet, and later
 found again by position or by search.

 Texts have newline as their only line boundary.
 */
module Annotations {
  import opened Wrappers

  const NL: char := '\n'

  /** `text.splitlines(keepends=True)`. */
  function SplitLines(text: string): (lines: seq<string>)
    ensures |lines| == 0 <==> text == ""
  {
    if text == "" then []
    else
      var rest := SplitLines(text[1..]);
      if text[0] == NL || rest == [] then [[text[0]]] + rest
      else [[text[0]] + rest[0]] + rest[1..]
  }

  function Join(lines: seq<string>): string
  {
    if lines == [] then "" else lines[0] + Join(lines[1..])
  }

  function Newlines(text: string): nat
  {
    if text == "" then 0 else Newlines(text[..|text| - 1]) + if text[|text| - 1] == NL then 1 else 0
  }

  function LineForOffset(text: string, offset: nat): nat
    requires offset <= |text|
  {
    Newlines(text[..offset]) + 1
  }

  /** A snippet that is not empty has at least one line, so the fallback to one never applies. */
  function LogicalLineCount(snippet: string): (n: nat)
    ensures n == 0 <==> snippet == ""
  {
    |SplitLines(snippet)|
  }

  // ---------------------------------------------------------------------------------------
  // Slicing
  // ---------------------------------------------------------------------------------------

  datatype Slice = Slice(snippet: string, before: string, after: string)

  datatype SliceError = StartBeyondFile | EndMissing | EndBeyondFile

  function Max(a: int, b: int): int
  {
    if a >= b then a else b
  }

  function Min(a: int, b: int): int
  {
    if a <= b then a else b
  }

  /** Lines are validated to start at 1 and to be in order before they get here. */
  function SliceAnchor(text: string, lineStart: Option<nat>, lineEnd: Option<nat>): Result<Slice, SliceError>
    requires lineStart.Some? ==> lineStart.value >= 1 && (lineEnd.Some? ==> lineStart.value <= lineEnd.value)
  {
    if lineStart.None? then Ok(Slice("", "", ""))
    else
      var lines, start := SplitLines(text), lineStart.value;
      if start > |lines| then Err(StartBeyondFile)
      else if lineEnd.None? then Err(EndMissing)
      else if lineEnd.value > |lines| then Err(EndBeyondFile)
      else
        var end := lineEnd.value;
        Ok(Slice(Join(lines[start - 1..end]), Join(lines[Max(0, start - 3)..start - 1]),
          Join(lines[end..Min(|lines|, end + 2)])))
  }

  // ---------------------------------------------------------------------------------------
  // Searching
  // ---------------------------------------------------------------------------------------

  predicate OccursAt(text: string, snippet: string, k: nat)
  {
    k + |snippet| <= |text| && text[k..k + |snippet|] == snippet
  }

  /** `text.find(snippet, from)`. */
  function FindFrom(text: string, snippet: string, from: nat): (r: Option<nat>)
    ensures r.Some? ==> from <= r.value && r.value + |snippet| <= |text|
    decreases |text| - from
  {
    if from > |text| then None
    else if OccursAt(text, snippet, from) then Some(from)
    else FindFrom(text, snippet, from + 1)
  }

  /** It is the first occurrence at or after `from`, if there is one. */
  lemma {:induction false} FindIsFirst(text: string, snippet: string, from: nat)
    ensures var r := FindFrom(text, snippet, from);
      match r {
        case Some(k) => OccursAt(text, snippet, k) && forall p: nat | from <= p < k :: !OccursAt(text, snippet, p)
        case None => forall p: nat | from <= p :: !OccursAt(text, snippet, p)
      }
    decreases |text| - from
  {
    if from <= |text| && !OccursAt(text, snippet, from) {
      FindIsFirst(text, snippet, from + 1);
    }
  }

  /** Every match found by searching on from the end of the one before. */
  function MatchesFrom(text: string, snippet: string, cursor: nat): (r: seq<nat>)
    ensures forall i | 0 <= i < |r| :: r[i] <= |text|
    decreases |text| + 1 - Min(cursor, |text| + 1)
  {
    var found := FindFrom(text, snippet, cursor);
    if found.None? then [] else [found.value] + MatchesFrom(text, snippet, found.value + Max(|snippet|, 1))
  }

  // ---------------------------------------------------------------------------------------
  // The anchor's state
  // ---------------------------------------------------------------------------------------

  // What reading the annotated file gave.
  datatype FileRead = Missing | Binary(unchanged_: bool) | Text(unchanged_: bool, text: string)

  datatype State = FileMissing | Current | ContentChangedAnchorFound | LineDrifted | StaleAnchor

  datatype Annotation = Annotation(snippet: string, lineStart: Option<nat>, lineEnd: Option<nat>)

  datatype Anchor = Anchor(state: State, confidence: real, matches: nat, lineStart: Option<nat>, lineEnd: Option<nat>)

  predicate StillThere(a: Annotation, text: string)
  {
    && a.lineStart.Some? && a.lineEnd.Some? && 1 <= a.lineStart.value <= a.lineEnd.value
    && var lines := SplitLines(text);
      a.lineStart.value <= |lines| && Join(lines[a.lineStart.value - 1..Min(a.lineEnd.value, |lines|)]) == a.snippet
  }

  function AnchorOf(a: Annotation, file: FileRead): Anchor
  {
    if file.Missing? then Anchor(FileMissing, 0.0, 0, None, None)
    else if file.unchanged_ then Anchor(Current, 1.0, if a.snippet != "" then 1 else 0, a.lineStart, a.lineEnd)
    else if file.Binary? || a.snippet == "" then Anchor(StaleAnchor, 0.0, 0, None, None)
    else if StillThere(a, file.text) then
      Anchor(ContentChangedAnchorFound, 0.85, 1, a.lineStart, Some(a.lineStart.value + LogicalLineCount(a.snippet) - 1))
    else
      var offsets := MatchesFrom(file.text, a.snippet, 0);
      if |offsets| == 1 then
        var line := LineForOffset(file.text, offsets[0]);
        Anchor(LineDrifted, 0.8, 1, Some(line), Some(line + LogicalLineCount(a.snippet) - 1))
      else Anchor(StaleAnchor, 0.0, |offsets|, None, None)
  }

  lemma MatchesNext(text: string, snippet: string, cursor: nat)
    ensures var found := FindFrom(text, snippet, cursor);
      MatchesFrom(text, snippet, cursor)
      == if found.None? then [] else [found.value] + MatchesFrom(text, snippet, found.value + Max(|snippet|, 1))
  {
  }

  method FindAll(text: string, snippet: string) returns (offsets: seq<nat>)
    ensures offsets == MatchesFrom(text, snippet, 0)
  {
    offsets := [];
    var cursor := 0;
    var found := FindFrom(text, snippet, cursor);
    while found.Some?
      invariant cursor <= |text| + 1 && found == FindFrom(text, snippet, cursor)
      invariant MatchesFrom(text, snippet, 0) == offsets + MatchesFrom(text, snippet, cursor)
      decreases |text| + 1 - cursor
    {
      MatchesNext(text, snippet, cursor);
      Regroup(offsets, found.value, MatchesFrom(text, snippet, found.value + Max(|snippet|, 1)));
      offsets := offsets + [found.value];
      cursor := found.value + Max(|snippet|, 1);
      found := FindFrom(text, snippet, cursor);
    }
  }

  lemma Regroup(s: seq<nat>, x: nat, t: seq<nat>)
    ensures s + ([x] + t) == (s + [x]) + t
  {
  }

  method ComputeAnchorState(a: Annotation, file: FileRead) returns (base: Anchor)
    ensures base == AnchorOf(a, file)
  {
    base := Anchor(FileMissing, 0.0, 0, None, None);
    if file.Missing? {
      return;
    }
    if file.unchanged_ {
      return Anchor(Current, 1.0, if a.snippet != "" then 1 else 0, a.lineStart, a.lineEnd);
    }
    if file.Binary? || a.snippet == "" {
      return base.(state := StaleAnchor);
    }
    if StillThere(a, file.text) {
      return Anchor(ContentChangedAnchorFound, 0.85, 1, a.lineStart,
        Some(a.lineStart.value + LogicalLineCount(a.snippet) - 1));
    }
    var offsets := FindAll(file.text, a.snippet);
    if |offsets| == 1 {
      var line := LineForOffset(file.text, offsets[0]);
      return Anchor(LineDrifted, 0.8, 1, Some(line), Some(line + LogicalLineCount(a.snippet) - 1));
    }
    return base.(state := StaleAnchor, matches := |offsets|);
  }

  // ---------------------------------------------------------------------------------------
  // Lines and offsets
  // ---------------------------------------------------------------------------------------

  lemma {:induction false} JoinSplit(text: string)
    ensures Join(SplitLines(text)) == text
  {
    if text != "" {
      JoinSplit(text[1..]);
      var rest := SplitLines(text[1..]);
      if text[0] == NL || rest == [] {
        assert ([[text[0]]] + rest)[1..] == rest;
      } else {
        assert ([[text[0]] + rest[0]] + rest[1..])[1..] == rest[1..];
      }
    }
  }

  /** Each line is not empty and has a newline at its end only, which only the last line may lack. */
  ghost predicate WellSplit(lines: seq<string>)
  {
    forall i | 0 <= i < |lines| ::
      && lines[i] != ""
      && (forall k | 0 <= k < |lines[i]| - 1 :: lines[i][k] != NL)
      && (i < |lines| - 1 ==> lines[i][|lines[i]| - 1] == NL)
  }

  lemma {:induction false} SplitIsWell(text: string)
    ensures WellSplit(SplitLines(text))
  {
    if text != "" {
      SplitIsWell(text[1..]);
      var rest := SplitLines(text[1..]);
      if text[0] == NL || rest == [] {
        var lines := [[text[0]]] + rest;
        forall i | 0 < i < |lines| ensures lines[i] == rest[i - 1] {
        }
      } else {
        var lines := [[text[0]] + rest[0]] + rest[1..];
        forall i | 0 < i < |lines| ensures lines[i] == rest[i] {
        }
      }
    }
  }

  lemma {:induction false} SplitLine(line: string, rest: seq<string>)
    requires WellSplit([line] + rest)
    ensures SplitLines(line + Join(rest)) == [line] + SplitLines(Join(rest))
  {
    var text := line + Join(rest);
    assert ([line] + rest)[0] == line;
    if |line| == 1 {
      assert text[1..] == Join(rest);
      if rest == [] {
        assert Join(rest) == "";
      } else {
        assert line[0] == NL;
      }
      assert [text[0]] == line;
    } else {
      var tail := line[1..];
      assert text[1..] == tail + Join(rest);
      assert WellSplit([tail] + rest) by {
        forall i | 0 < i < |[tail] + rest| ensures ([tail] + rest)[i] == ([line] + rest)[i] {
        }
      }
      SplitLine(tail, rest);
      var split := SplitLines(text[1..]);
      assert split[0] == tail && split[1..] == SplitLines(Join(rest));
      assert text[0] == line[0] != NL && [line[0]] + tail == line;
    }
  }

  /** Splitting the joined lines of a well-split text gives the lines back. */
  lemma {:induction false} SplitJoin(lines: seq<string>)
    requires WellSplit(lines)
    ensures SplitLines(Join(lines)) == lines
  {
    if lines != [] {
      var rest := lines[1..];
      forall i | 0 <= i < |rest| ensures rest[i] == lines[i + 1] {
      }
      SplitJoin(rest);
      assert [lines[0]] + rest == lines;
      SplitLine(lines[0], rest);
    }
  }

  lemma {:induction false} NewlinesConcat(a: string, b: string)
    ensures Newlines(a + b) == Newlines(a) + Newlines(b)
  {
    if b == "" {
      assert a + b == a;
    } else {
      NewlinesConcat(a, b[..|b| - 1]);
      assert (a + b)[..|a + b| - 1] == a + b[..|b| - 1];
    }
  }

  /** A text has as many lines as newlines before its last character, and one. */
  lemma {:induction false} CountLines(text: string)
    requires text != ""
    ensures |SplitLines(text)| == Newlines(text[..|text| - 1]) + 1
  {
    if |text| == 1 {
      assert text[1..] == "" && text[..0] == "";
    } else {
      CountLines(text[1..]);
      var init := text[..|text| - 1];
      assert init == [text[0]] + text[1..][..|text| - 2];
      NewlinesConcat([text[0]], text[1..][..|text| - 2]);
      assert [text[0]][..0] == "";
    }
  }

  lemma LinesStepByOne(text: string, p: nat)
    requires p < |text|
    ensures LineForOffset(text, p) <= LineForOffset(text, p + 1) <= LineForOffset(text, p) + 1
  {
    assert text[..p + 1][..p] == text[..p];
  }

  /** The line numbers of consecutive offsets leave none out. */
  lemma {:induction false} LinesAreContiguous(text: string, from: nat, last: nat, n: nat)
    requires from <= last <= |text|
    ensures LineForOffset(text, from) <= LineForOffset(text, last)
    ensures LineForOffset(text, from) <= n <= LineForOffset(text, last) ==> LineIsAmong(text, from, last, n)
    decreases last
  {
    if from < last {
      LinesAreContiguous(text, from, last - 1, n);
      LinesStepByOne(text, last - 1);
      if LineIsAmong(text, from, last - 1, n) {
        var p: nat :| from <= p <= last - 1 && LineForOffset(text, p) == n;
      }
    }
  }

  ghost predicate LineIsAmong(text: string, from: nat, last: nat, n: nat)
    requires last <= |text|
  {
    exists p: nat :: from <= p <= last && LineForOffset(text, p) == n
  }

  /** Line `n` holds some character of the `length` ones at `offset`. */
  ghost predicate Covers(text: string, offset: nat, length: nat, n: nat)
  {
    offset + length <= |text| && exists p: nat :: offset <= p < offset + length && LineForOffset(text, p) == n
  }

  lemma MatchSpansItsLines(text: string, snippet: string, o: nat, n: nat)
    requires snippet != "" && OccursAt(text, snippet, o)
    ensures Covers(text, o, |snippet|, n) <==>
      LineForOffset(text, o) <= n <= LineForOffset(text, o) + LogicalLineCount(snippet) - 1
  {
    var last := o + |snippet| - 1;
    assert text[..last] == text[..o] + snippet[..|snippet| - 1];
    NewlinesConcat(text[..o], snippet[..|snippet| - 1]);
    CountLines(snippet);
    LinesAreContiguous(text, o, last, n);
    if LineIsAmong(text, o, last, n) {
      var p: nat :| o <= p <= last && LineForOffset(text, p) == n;
    }
    forall p: nat | o <= p < o + |snippet|
      ensures LineForOffset(text, o) <= LineForOffset(text, p) <= LineForOffset(text, last) {
      LinesAreContiguous(text, o, p, n);
      LinesAreContiguous(text, p, last, n);
    }
  }

  /** The line number of an offset is the place of its character among the split lines. */
  lemma {:induction false} OffsetIsInItsLine(text: string, p: nat)
    requires p < |text|
    ensures var lines, k := SplitLines(text), LineForOffset(text, p) - 1;
      k < |lines| && |Join(lines[..k])| <= p < |Join(lines[..k + 1])|
  {
    var lines := SplitLines(text);
    SplitIsWell(text);
    JoinSplit(text);
    OffsetInLines(lines, p);
  }

  lemma {:induction false} NoNewlines(s: string)
    requires forall k | 0 <= k < |s| :: s[k] != NL
    ensures Newlines(s) == 0
  {
    if s != "" {
      NoNewlines(s[..|s| - 1]);
    }
  }

  lemma {:induction false} OffsetInLines(lines: seq<string>, p: nat)
    requires WellSplit(lines) && p < |Join(lines)|
    ensures var k := LineForOffset(Join(lines), p) - 1;
      k < |lines| && |Join(lines[..k])| <= p < |Join(lines[..k + 1])|
    decreases |lines|
  {
    var first, rest := lines[0], lines[1..];
    var text := Join(lines);
    assert text == first + Join(rest);
    if p < |first| {
      assert text[..p] == first[..p];
      NoNewlines(first[..p]);
      assert lines[..0] == [] && lines[..1] == [first] && Join([first]) == first + Join([first][1..])
        && Join([first][1..]) == "";
    } else {
      forall i | 0 <= i < |rest| ensures rest[i] == lines[i + 1] {
      }
      OffsetInLines(rest, p - |first|);
      assert text[..p] == first + Join(rest)[..p - |first|];
      NewlinesConcat(first, Join(rest)[..p - |first|]);
      NewlineEnded(first);
      var k := LineForOffset(Join(rest), p - |first|) - 1;
      hide Join, Newlines, WellSplit;
      JoinSlice(lines, k);
      JoinSlice(lines, k + 1);
    }
  }

  lemma NewlineEnded(line: string)
    requires line != "" && (forall k | 0 <= k < |line| - 1 :: line[k] != NL) && line[|line| - 1] == NL
    ensures Newlines(line) == 1
  {
    NoNewlines(line[..|line| - 1]);
  }

  lemma JoinSlice(lines: seq<string>, k: nat)
    requires lines != [] && k <= |lines| - 1
    ensures Join(lines[..k + 1]) == lines[0] + Join(lines[1..][..k])
  {
    assert lines[..k + 1][1..] == lines[1..][..k];
  }

  // ---------------------------------------------------------------------------------------
  // What the state says
  // ---------------------------------------------------------------------------------------

  /** With a single match every occurrence of the snippet starts inside it. */
  lemma OnlyMatch(text: string, snippet: string, o: nat)
    requires snippet != "" && MatchesFrom(text, snippet, 0) == [o]
    ensures FindFrom(text, snippet, 0) == Some(o) && FindFrom(text, snippet, o + |snippet|).None?
  {
    var found := FindFrom(text, snippet, 0);
    if found.Some? {
      var rest := MatchesFrom(text, snippet, found.value + |snippet|);
      assert MatchesFrom(text, snippet, 0) == [found.value] + rest;
      assert ([found.value] + rest)[0] == found.value && |rest| == 0;
    }
  }

  lemma SingleMatch(text: string, snippet: string, o: nat, p: nat)
    requires snippet != "" && MatchesFrom(text, snippet, 0) == [o] && OccursAt(text, snippet, p)
    ensures OccursAt(text, snippet, o) && o <= p < o + |snippet|
  {
    OnlyMatch(text, snippet, o);
    FindIsFirst(text, snippet, 0);
    FindIsFirst(text, snippet, o + |snippet|);
  }

  /** A drifted anchor names exactly the lines its single match covers. */
  lemma DriftedNamesItsLines(a: Annotation, file: FileRead)
    requires AnchorOf(a, file).state.LineDrifted?
    ensures file.Text?
    ensures exists o: nat :: (
      && MatchesFrom(file.text, a.snippet, 0) == [o] && OccursAt(file.text, a.snippet, o)
      && forall n: nat :: Covers(file.text, o, |a.snippet|, n)
                          <==> AnchorOf(a, file).lineStart.value <= n <= AnchorOf(a, file).lineEnd.value)
  {
    var offsets := MatchesFrom(file.text, a.snippet, 0);
    var o := offsets[0];
    assert offsets == [o];
    OnlyMatch(file.text, a.snippet, o);
    FindIsFirst(file.text, a.snippet, 0);
    forall n: nat
      ensures Covers(file.text, o, |a.snippet|, n)
              <==> AnchorOf(a, file).lineStart.value <= n <= AnchorOf(a, file).lineEnd.value
    {
      MatchSpansItsLines(file.text, a.snippet, o, n);
    }
  }

  /** The snippet ends as it starts, so that it can overlap itself `d` characters further on. */
  predicate HasBorder(snippet: string, d: nat)
  {
    0 < d < |snippet| && snippet[d..] == snippet[..|snippet| - d]
  }

  lemma OverlapIsABorder(text: string, snippet: string, o: nat, p: nat)
    requires OccursAt(text, snippet, o) && OccursAt(text, snippet, p) && o < p < o + |snippet|
    ensures HasBorder(snippet, p - o)
  {
    var d := p - o;
    assert text[p..o + |snippet|] == text[o..o + |snippet|][d..] == snippet[d..];
    assert text[p..o + |snippet|] == text[p..p + |snippet|][..|snippet| - d] == snippet[..|snippet| - d];
  }

  /** With a border, a text with a single match and yet another occurrence. */
  lemma BorderOverlaps(snippet: string, d: nat) returns (text: string)
    requires HasBorder(snippet, d)
    ensures MatchesFrom(text, snippet, 0) == [0] && OccursAt(text, snippet, d)
  {
    var n := |snippet|;
    text := snippet + snippet[n - d..];
    assert text[d..d + n] == snippet[d..] + snippet[n - d..] == snippet[..n - d] + snippet[n - d..] == snippet;
    assert OccursAt(text, snippet, 0);
    assert FindFrom(text, snippet, 0) == Some(0);
    FindIsFirst(text, snippet, n);
    assert FindFrom(text, snippet, n).None?;
    assert MatchesFrom(text, snippet, n) == [];
  }

  /** A single match is the only occurrence of the snippet, in every text, exactly when the snippet has no border. */
  lemma SingleMatchIsUniqueIff(snippet: string)
    requires snippet != ""
    ensures (forall text, o: nat, p: nat | MatchesFrom(text, snippet, 0) == [o] && OccursAt(text, snippet, p) :: p == o)
       <==> (forall d: nat :: !HasBorder(snippet, d))
  {
    if d: nat :| HasBorder(snippet, d) {
      var text := BorderOverlaps(snippet, d);
      assert MatchesFrom(text, snippet, 0) == [0] && OccursAt(text, snippet, d);
    } else {
      forall text, o: nat, p: nat | MatchesFrom(text, snippet, 0) == [o] && OccursAt(text, snippet, p) ensures p == o {
        SingleMatch(text, snippet, o, p);
        if o < p {
          OverlapIsABorder(text, snippet, o, p);
        }
      }
    }
  }

  /** Overlapping occurrences count as one: "aa" is found once in "aaa". */
  lemma OverlapCountsOnce()
    ensures MatchesFrom("aaa", "aa", 0) == [0] && OccursAt("aaa", "aa", 1)
  {
    assert OccursAt("aaa", "aa", 0);
    assert FindFrom("aaa", "aa", 0) == Some(0);
    FindIsFirst("aaa", "aa", 2);
    assert FindFrom("aaa", "aa", 2).None?;
    assert MatchesFrom("aaa", "aa", 2) == [];
  }

  /** An annotation written against lines `start` to `end` of a text. */
  ghost predicate SlicedFrom(a: Annotation, text: string, start: nat, end: nat)
  {
    && 1 <= start <= end <= |SplitLines(text)|
    && a == Annotation(Join(SplitLines(text)[start - 1..end]), Some(start), Some(end))
  }

  /** Slicing succeeds exactly for lines the file has, and gives their text with up to two lines of context. */
  lemma SliceMeans(text: string, start: nat, end: nat)
    requires 1 <= start <= end
    ensures var r := SliceAnchor(text, Some(start), Some(end));
      var lines := SplitLines(text);
      && (r.Ok? <==> end <= |lines|)
      && (r == Err(StartBeyondFile) <==> start > |lines|)
      && (r.Ok? ==>
            && SlicedFrom(Annotation(r.value.snippet, Some(start), Some(end)), text, start, end)
            && r.value.before == Join(lines[if start <= 3 then 0 else start - 3..start - 1])
            && r.value.after == Join(lines[end..if end + 2 <= |lines| then end + 2 else |lines|]))
  {
  }

  /** The anchor of a file in full: missing; unchanged, whatever it holds; binary or without a snippet, which is
      never searched; the snippet still at its lines; found elsewhere once; or not, or not once. */
  lemma AnchorMeans(a: Annotation, file: FileRead)
    ensures var r := AnchorOf(a, file);
      && (file == Missing ==> r == Anchor(FileMissing, 0.0, 0, None, None))
      && (!file.Missing? && file.unchanged_ ==>
            r.state == Current && r.lineStart == a.lineStart && r.lineEnd == a.lineEnd
            && r.matches == if a.snippet == "" then 0 else 1)
      && (!file.Missing? && !file.unchanged_ && (file.Binary? || a.snippet == "") ==>
            r == Anchor(StaleAnchor, 0.0, 0, None, None))
      && (file.Text? && !file.unchanged_ && a.snippet != "" ==>
            var still := exists start: nat, end: nat ::
              && a.lineStart == Some(start) && a.lineEnd == Some(end) && 1 <= start <= end
              && start <= |SplitLines(file.text)|
              && a.snippet == Join(SplitLines(file.text)[start - 1..if end <= |SplitLines(file.text)| then end
                                                                    else |SplitLines(file.text)|]);
            && (r.state == ContentChangedAnchorFound <==> still)
            && (r.state == LineDrifted <==> !still && |MatchesFrom(file.text, a.snippet, 0)| == 1)
            && (r.state == StaleAnchor <==> !still && |MatchesFrom(file.text, a.snippet, 0)| != 1)
            && (!still ==> r.matches == |MatchesFrom(file.text, a.snippet, 0)|))
  {
    hide SplitLines, MatchesFrom, LogicalLineCount, LineForOffset;
  }

  /** What was sliced from a text is found in it again at the same lines, as long as the file's checksum alone
      changed. */
  lemma SliceIsFoundAgain(a: Annotation, text: string, start: nat, end: nat)
    requires SlicedFrom(a, text, start, end)
    ensures a.snippet != "" && AnchorOf(a, Text(false, text)) ==
      Anchor(ContentChangedAnchorFound, 0.85, 1, Some(start), Some(end))
  {
    SliceLines(text, start, end);
    hide SplitLines, MatchesFrom, FindFrom, LineForOffset;
    assert StillThere(a, text);
  }

  lemma {:induction false} JoinConcat(a: seq<string>, b: seq<string>)
    ensures Join(a + b) == Join(a) + Join(b)
  {
    if a == [] {
      assert a + b == b;
    } else {
      assert (a + b)[1..] == a[1..] + b;
      JoinConcat(a[1..], b);
    }
  }

  /** Where a slice stands in its text. */
  lemma SlicePlace(text: string, start: nat, end: nat)
    requires 1 <= start <= end <= |SplitLines(text)|
    ensures var lines := SplitLines(text);
      text == Join(lines[..start - 1]) + Join(lines[start - 1..end]) + Join(lines[end..])
  {
    var lines := SplitLines(text);
    JoinSplit(text);
    var above, part, below := lines[..start - 1], lines[start - 1..end], lines[end..];
    assert lines == (above + part) + below;
    JoinConcat(above + part, below);
    JoinConcat(above, part);
  }

  lemma SliceLines(text: string, start: nat, end: nat)
    requires 1 <= start <= end <= |SplitLines(text)|
    ensures var lines := SplitLines(text);
      Newlines(Join(lines[..start - 1])) == start - 1
        && LogicalLineCount(Join(lines[start - 1..end])) == end - start + 1
  {
    var lines := SplitLines(text);
    SplitIsWell(text);
    hide SplitLines;
    var above, part := lines[..start - 1], lines[start - 1..end];
    forall i | 0 <= i < |above| ensures above[i] == lines[i] {
    }
    WholeLines(above);
    forall i | 0 <= i < |part| ensures part[i] == lines[start - 1 + i] {
    }
    SplitJoin(part);
  }

  lemma DriftedTo(a: Annotation, text: string, o: nat)
    requires a.snippet != "" && !StillThere(a, text) && MatchesFrom(text, a.snippet, 0) == [o]
    ensures o <= |text|
    ensures var line := LineForOffset(text, o);
      AnchorOf(a, Text(false, text)) ==
        Anchor(LineDrifted, 0.8, 1, Some(line), Some(line + LogicalLineCount(a.snippet) - 1))
  {
    hide MatchesFrom, StillThere, Newlines, LogicalLineCount;
    assert MatchesFrom(text, a.snippet, 0)[0] == o;
  }

  lemma NewlinesOfWholeLines(prefix: string)
    requires prefix != "" && prefix[|prefix| - 1] == NL
    ensures Newlines(prefix) == |SplitLines(prefix)|
  {
    CountLines(prefix);
  }

  ghost predicate OccursOnlyAt(text: string, snippet: string, o: nat)
  {
    forall p: nat :: OccursAt(text, snippet, p) <==> p == o
  }

  lemma OnlyOccurrenceIsOnlyMatch(text: string, snippet: string, o: nat)
    requires snippet != "" && OccursOnlyAt(text, snippet, o)
    ensures MatchesFrom(text, snippet, 0) == [o]
  {
    FindIsFirst(text, snippet, 0);
    FindIsFirst(text, snippet, o + |snippet|);
    assert OccursAt(text, snippet, o);
    assert FindFrom(text, snippet, 0) == Some(o);
    assert FindFrom(text, snippet, o + |snippet|).None?;
    MatchesNext(text, snippet, 0);
    MatchesNext(text, snippet, o + |snippet|);
  }

  lemma ShiftedOccurrence(prefix: string, above: string, snippet: string, below: string, o: nat)
    requires OccursOnlyAt(prefix + (above + snippet + below), snippet, o)
    ensures o <= |prefix + (above + snippet + below)| && (prefix + (above + snippet + below))[..o] == prefix + above
  {
    var all, at := prefix + (above + snippet + below), |prefix| + |above|;
    assert all[at..at + |snippet|] == snippet;
    assert OccursAt(all, snippet, at);
  }

  lemma DriftedPast(a: Annotation, prefix: string, above: string, below: string, start: nat, end: nat, o: nat)
    requires a.snippet != "" && prefix != "" && prefix[|prefix| - 1] == NL
    requires Newlines(above) == start - 1 && LogicalLineCount(a.snippet) == end - start + 1
    requires var text := prefix + (above + a.snippet + below); !StillThere(a, text) && OccursOnlyAt(text, a.snippet, o)
    ensures var text, n := prefix + (above + a.snippet + below), |SplitLines(prefix)|;
      AnchorOf(a, Text(false, text)) == Anchor(LineDrifted, 0.8, 1, Some(start + n), Some(end + n))
  {
    hide OccursOnlyAt, StillThere, Newlines, MatchesFrom, OccursAt, SplitLines, AnchorOf;
    ShiftedOccurrence(prefix, above, a.snippet, below, o);
    NewlinesConcat(prefix, above);
    NewlinesOfWholeLines(prefix);
    OnlyOccurrenceIsOnlyMatch(prefix + (above + a.snippet + below), a.snippet, o);
    DriftedTo(a, prefix + (above + a.snippet + below), o);
  }

  /** Inserting whole lines above: when the snippet occurs once and not at its old lines, the anchor moves down by
      exactly the number of lines inserted. */
  lemma DriftFollowsInsertion(a: Annotation, text: string, prefix: string, start: nat, end: nat, o: nat)
    requires SlicedFrom(a, text, start, end)
    requires prefix != "" && prefix[|prefix| - 1] == NL
    requires !StillThere(a, prefix + text) && OccursOnlyAt(prefix + text, a.snippet, o)
    ensures var n := |SplitLines(prefix)|;
      AnchorOf(a, Text(false, prefix + text)) == Anchor(LineDrifted, 0.8, 1, Some(start + n), Some(end + n))
  {
    SliceIsFoundAgain(a, text, start, end);
    SlicePlace(text, start, end);
    SliceLines(text, start, end);
    DriftedPast(a, prefix, Join(SplitLines(text)[..start - 1]), Join(SplitLines(text)[end..]), start, end, o);
  }

  /** Lines that each end in a newline hold as many newlines as there are lines. */
  lemma {:induction false} WholeLines(lines: seq<string>)
    requires forall i | 0 <= i < |lines| ::
      lines[i] != "" && (forall k | 0 <= k < |lines[i]| - 1 :: lines[i][k] != NL) && lines[i][|lines[i]| - 1] == NL
    ensures Newlines(Join(lines)) == |lines|
  {
    if lines != [] {
      WholeLines(lines[1..]);
      NewlineEnded(lines[0]);
      NewlinesConcat(lines[0], Join(lines[1..]));
    }
  }
}
