/**
 * Properties of src/parse.c: the line index covers the file, the comment
 * scan attaches the unbroken run of comment lines above a binding, and the
 * walkers append one entry per documented binding.
 */
module ParseFacts {
  import opened Wrappers
  import opened Strings
  import opened Marker
  import opened Parse

  // ---------------------------------------------------------------------------
  // Line index

  /** A file with n newlines has n + 1 line records. */
  lemma {:induction false} LinesCount(text: string, start: nat)
    requires start <= |text|
    ensures |LinesFrom(text, start)| == Count(text[start..], '\n') + 1
    decreases |text| - start
  {
    var nl := IndexOf(text, '\n', start);
    if nl == -1 {
      CountAbsent(text[start..], '\n');
    } else {
      LinesCount(text, nl + 1);
      LinesLength(text, start, nl);
      CountFirst(text, start, nl, '\n');
    }
  }

  lemma LinesLength(text: string, start: nat, nl: int)
    requires start <= |text| && nl == IndexOf(text, '\n', start) && nl != -1
    ensures |LinesFrom(text, start)| == 1 + |LinesFrom(text, nl + 1)|
  {
  }

  /** Every record lies within the text. */
  predicate Placed(text: string, ls: seq<Line>)
  {
    forall r :: r in ls ==> r.start + r.length <= |text|
  }

  /** The texts of the records, one after the other. */
  function Texts(text: string, ls: seq<Line>): string
    requires Placed(text, ls)
  {
    if ls == [] then "" else text[ls[0].start..LineEnd(ls[0])] + Texts(text, ls[1..])
  }

  /** The records' texts, put back together, are the text. */
  lemma {:induction false} LinesCover(text: string, start: nat)
    requires start <= |text|
    ensures Placed(text, LinesFrom(text, start))
    ensures Texts(text, LinesFrom(text, start)) == text[start..]
    decreases |text| - start
  {
    var nl := IndexOf(text, '\n', start);
    if nl != -1 {
      LinesCover(text, nl + 1);
      CoverStep(text, start, nl);
    } else {
      CoverLast(text, start);
    }
  }

  /** The line a newline ends, then the records after it. */
  lemma CoverStep(text: string, start: nat, nl: int)
    requires start <= |text| && nl == IndexOf(text, '\n', start) && nl != -1
    requires Placed(text, LinesFrom(text, nl + 1)) && Texts(text, LinesFrom(text, nl + 1)) == text[nl + 1..]
    ensures Placed(text, LinesFrom(text, start))
    ensures Texts(text, LinesFrom(text, start)) == text[start..]
  {
    LinesCons(text, start, nl);
    var r := Line(start, SkipBlanks(text, start), nl + 1 - start);
    var next := nl + 1;
    SliceSplit(text, start, next);
    hide LinesFrom, IndexOf, SkipBlanks, Texts, Placed;
    TextsCons(text, r, LinesFrom(text, next), start, next);
  }

  /** The last line, which no newline ends. */
  lemma CoverLast(text: string, start: nat)
    requires start <= |text| && IndexOf(text, '\n', start) == -1
    ensures Placed(text, LinesFrom(text, start))
    ensures Texts(text, LinesFrom(text, start)) == text[start..]
  {
    var r := Line(start, SkipBlanks(text, start), |text| - start);
    assert LinesFrom(text, start) == [r];
    assert Placed(text, []) && Texts(text, []) == "";
    hide LinesFrom, IndexOf, SkipBlanks, Texts, Placed;
    TextsCons(text, r, [], start, |text|);
    assert text[start..] == text[start..|text|];
    assert [r] + [] == [r];
  }

  /** The text of a first record, then the texts of the rest. */
  lemma TextsCons(text: string, r: Line, rest: seq<Line>, lo: nat, hi: nat)
    requires Placed(text, rest) && lo == r.start && hi == LineEnd(r) && hi <= |text|
    ensures Placed(text, [r] + rest)
    ensures Texts(text, [r] + rest) == text[lo..hi] + Texts(text, rest)
  {
    assert ([r] + rest)[1..] == rest;
  }

  /**
   * Each record but the last ends with its newline where the next begins;
   * the last runs to the end of the text and holds no newline.
   */
  lemma {:induction false} LinesShape(text: string, start: nat)
    requires start <= |text|
    ensures var ls := LinesFrom(text, start);
      Chained(text, ls) && Final(text, ls[|ls| - 1])
    decreases |text| - start
  {
    var nl := IndexOf(text, '\n', start);
    if nl != -1 {
      LinesShape(text, nl + 1);
      var rest := LinesFrom(text, nl + 1);
      LinesCons(text, start, nl);
      ConsChained(text, Line(start, SkipBlanks(text, start), nl + 1 - start), rest);
    }
  }

  /** Record `a` ends with its newline where record `b` begins. */
  predicate Abuts(text: string, a: Line, b: Line)
  {
    LineEnd(a) == b.start && 1 <= a.length && LineEnd(a) <= |text| && text[LineEnd(a) - 1] == '\n'
  }

  /** Each record but the last abuts the next. */
  predicate Chained(text: string, ls: seq<Line>)
  {
    forall i :: 0 <= i < |ls| - 1 ==> Abuts(text, ls[i], ls[i + 1])
  }

  /** Record `r` runs to the end of the text and holds no newline. */
  predicate Final(text: string, r: Line)
  {
    LineEnd(r) == |text| && forall k :: r.start <= k < |text| ==> text[k] != '\n'
  }

  /** A record abutting the first of a chain extends the chain, which keeps its last record. */
  lemma ConsChained(text: string, r: Line, rest: seq<Line>)
    requires |rest| >= 1 && Abuts(text, r, rest[0]) && Chained(text, rest)
    ensures Chained(text, [r] + rest) && ([r] + rest)[|rest|] == rest[|rest| - 1]
  {
    var ls := [r] + rest;
    forall i | 0 <= i < |ls| - 1
      ensures Abuts(text, ls[i], ls[i + 1])
    {
      if i > 0 {
        assert ls[i] == rest[i - 1] && ls[i + 1] == rest[i];
      }
    }
  }

  /** `start_nows` skips spaces and tabs only. */
  lemma LinesSkipBlanks(text: string, i: nat)
    requires i < |LinesFrom(text, 0)|
    ensures var r := LinesFrom(text, 0)[i];
      r.start <= r.startNows <= |text|
      && (forall k :: r.start <= k < r.startNows ==> text[k] == ' ' || text[k] == '\t')
      && (r.startNows < |text| ==> text[r.startNows] != ' ' && text[r.startNows] != '\t')
  {
    LinesIndexed(text, 0);
    assert LineOk(text, LinesFrom(text, 0)[i]);
  }

  // ---------------------------------------------------------------------------
  // The comment block above a binding

  /** Every record but the last ends in a newline, as the records of a whole file do. */
  predicate Terminated(text: string, lines: seq<Line>)
  {
    forall j :: 0 <= j < |lines| - 1 ==>
      (lines[j].length >= 1 && lines[j].start + lines[j].length <= |text|
       && text[lines[j].start + lines[j].length - 1] == '\n')
  }

  /** The records of a file are terminated. */
  lemma LinesTerminated(text: string)
    ensures Terminated(text, LinesFrom(text, 0))
  {
    var ls := LinesFrom(text, 0);
    LinesShape(text, 0);
    forall j | 0 <= j < |ls| - 1
      ensures ls[j].length >= 1 && ls[j].start + ls[j].length <= |text| && text[ls[j].start + ls[j].length - 1] == '\n'
    {
      assert Abuts(text, ls[j], ls[j + 1]);
    }
  }

  /** Lines `lo` to `hi - 1` are all comment lines. */
  predicate AllComments(text: string, lines: seq<Line>, lo: int, hi: int)
    requires 0 <= lo <= hi <= |lines|
  {
    forall j :: lo <= j < hi ==> IsComment(text, lines[j])
  }

  /** What comment line `r` adds to the description: its text, or nothing for a directive. */
  function Piece(text: string, r: Line): string
  {
    if !IsComment(text, r) || IsDirective(text, r) then ""
    else
      var p := TextStart(text, r);
      var e := LineEnd(r);
      if p <= e <= |text| then text[p..e] else ""
  }

  /** The prose of comment lines `lo` to `hi - 1`, in source order. */
  function Prose(text: string, lines: seq<Line>, lo: int, hi: int): string
    requires 0 <= lo <= hi <= |lines|
    decreases hi - lo
  {
    if lo == hi then "" else Prose(text, lines, lo, hi - 1) + Piece(text, lines[hi - 1])
  }

  /** A prose line ends in its newline, so prepending it leaves a newline-terminated description alone. */
  lemma ProseLine(text: string, lines: seq<Line>, j: int, desc: string)
    requires Indexed(text, lines) && Terminated(text, lines) && 0 <= j < |lines| - 1
    requires Continues(text, lines, j) && !IsDirective(text, lines[j])
    requires desc == "" || desc[|desc| - 1] == '\n'
    ensures TextStart(text, lines[j]) < LineEnd(lines[j]) <= |text|
    ensures Piece(text, lines[j]) == text[TextStart(text, lines[j])..LineEnd(lines[j])]
    ensures DescStep(text, lines[j], desc) == Piece(text, lines[j]) + desc
    ensures Piece(text, lines[j])[|Piece(text, lines[j])| - 1] == '\n'
  {
    ProseText(text, lines, j);
    var t := Piece(text, lines[j]);
    assert DescStep(text, lines[j], desc) == Prepend(t, desc);
    hide Piece, DescStep;
    PrependNewline(t, desc);
  }

  /** The text of a prose line that is not the last runs from its start to its newline. */
  lemma ProseText(text: string, lines: seq<Line>, j: int)
    requires Indexed(text, lines) && Terminated(text, lines) && 0 <= j < |lines| - 1
    requires Continues(text, lines, j) && !IsDirective(text, lines[j])
    ensures TextStart(text, lines[j]) < LineEnd(lines[j]) <= |text|
    ensures Piece(text, lines[j]) == text[TextStart(text, lines[j])..LineEnd(lines[j])]
    ensures Piece(text, lines[j])[|Piece(text, lines[j])| - 1] == '\n'
  {
    var r := lines[j];
    var e := LineEnd(r);
    TextWithinLine(text, lines, j);
    assert LineOk(text, r);
    var p := TextStart(text, r);
    var t := text[p..e];
    assert t[|t| - 1] == text[e - 1];
  }

  /** Prepending a line that ends in its newline to a newline-terminated description changes no character. */
  lemma PrependNewline(t: string, desc: string)
    requires |t| > 0 && t[|t| - 1] == '\n'
    requires desc == "" || desc[|desc| - 1] == '\n'
    ensures Prepend(t, desc) == t + desc
  {
    var d := t + desc;
    assert d[|d| - 1] == '\n';
  }

  /**
   * `c` is what a scan from line `i` with description `desc` should give:
   * it stopped at the first line above `i` that is not a comment, and its
   * description is the prose of the run in source order, each line ending
   * in its newline, followed by `desc`.
   */
  predicate Attached(text: string, lines: seq<Line>, i: int, desc: string, c: Gathered)
    requires -1 <= i < |lines|
  {
    0 <= c.first <= i + 1
    && AllComments(text, lines, c.first, i + 1)
    && (c.first == 0 || !IsComment(text, lines[c.first - 1]))
    && c.desc == Prose(text, lines, c.first, i + 1) + desc
    && (c.desc == "" || c.desc[|c.desc| - 1] == '\n')
  }

  lemma AppendEmpty(a: string)
    ensures a + "" == a
  {
  }

  lemma ProseStep(text: string, lines: seq<Line>, lo: int, hi: int)
    requires 0 <= lo < hi <= |lines|
    ensures Prose(text, lines, lo, hi) == Prose(text, lines, lo, hi - 1) + Piece(text, lines[hi - 1])
  {
  }

  lemma AttachedDirective(text: string, lines: seq<Line>, i: int, desc: string, c: Gathered)
    requires 0 <= i < |lines| && IsComment(text, lines[i])
    requires Piece(text, lines[i]) == ""
    requires Attached(text, lines, i - 1, desc, c)
    ensures Attached(text, lines, i, desc, c)
  {
    hide Piece, Prose, IsComment, AllComments;
    ProseStep(text, lines, c.first, i + 1);
    CommentsExtend(text, lines, c.first, i);
    AppendEmpty(Prose(text, lines, c.first, i));
  }

  lemma AttachedProse(text: string, lines: seq<Line>, i: int, desc: string, c: Gathered)
    requires 0 <= i < |lines| && IsComment(text, lines[i])
    requires Attached(text, lines, i - 1, Piece(text, lines[i]) + desc, c)
    ensures Attached(text, lines, i, desc, c)
  {
    hide Piece, Prose, IsComment, AllComments;
    ProseStep(text, lines, c.first, i + 1);
    CommentsExtend(text, lines, c.first, i);
    ConcatAssoc(Prose(text, lines, c.first, i), Piece(text, lines[i]), desc);
  }

  /** A run of comment lines followed by one more comment line. */
  lemma CommentsExtend(text: string, lines: seq<Line>, lo: int, hi: int)
    requires 0 <= lo <= hi < |lines| && AllComments(text, lines, lo, hi) && IsComment(text, lines[hi])
    ensures AllComments(text, lines, lo, hi + 1)
  {
    hide IsComment;
  }

  lemma ScanStops(text: string, lines: seq<Line>, i: int, desc: string)
    requires -1 <= i < |lines| && !Continues(text, lines, i)
    requires desc == "" || desc[|desc| - 1] == '\n'
    ensures Attached(text, lines, i, desc, ScanDesc(text, lines, i, desc))
  {
    assert Prose(text, lines, i + 1, i + 1) == "";
  }

  lemma ScanStep(text: string, lines: seq<Line>, i: int, desc: string)
    requires Continues(text, lines, i)
    ensures ScanDesc(text, lines, i, desc) == ScanDesc(text, lines, i - 1, DescStep(text, lines[i], desc))
    ensures IsDirective(text, lines[i]) ==> DescStep(text, lines[i], desc) == desc
  {
  }

  /** The scan from line `i` attaches the unbroken run of comment lines that ends there. */
  lemma {:induction false} ScanAttaches(text: string, lines: seq<Line>, i: int, desc: string)
    requires Indexed(text, lines) && Terminated(text, lines)
    requires -1 <= i < |lines| - 1
    requires desc == "" || desc[|desc| - 1] == '\n'
    ensures Attached(text, lines, i, desc, ScanDesc(text, lines, i, desc))
    decreases i + 1, 1
  {
    if !Continues(text, lines, i) {
      ScanStops(text, lines, i, desc);
    } else if IsDirective(text, lines[i]) {
      DirectiveAttaches(text, lines, i, desc);
    } else {
      ProseAttaches(text, lines, i, desc);
    }
  }

  /** A directive line at the bottom of the run adds nothing to what the lines above give. */
  lemma {:induction false} DirectiveAttaches(text: string, lines: seq<Line>, i: int, desc: string)
    requires Indexed(text, lines) && Terminated(text, lines)
    requires 0 <= i < |lines| - 1 && Continues(text, lines, i) && IsDirective(text, lines[i])
    requires desc == "" || desc[|desc| - 1] == '\n'
    ensures Attached(text, lines, i, desc, ScanDesc(text, lines, i, desc))
    decreases i + 1, 0
  {
    ScanStep(text, lines, i, desc);
    ScanAttaches(text, lines, i - 1, desc);
    AttachedDirective(text, lines, i, desc, ScanDesc(text, lines, i - 1, desc));
  }

  /** A prose line at the bottom of the run comes last in the description, before `desc`. */
  lemma {:induction false} ProseAttaches(text: string, lines: seq<Line>, i: int, desc: string)
    requires Indexed(text, lines) && Terminated(text, lines)
    requires 0 <= i < |lines| - 1 && Continues(text, lines, i) && !IsDirective(text, lines[i])
    requires desc == "" || desc[|desc| - 1] == '\n'
    ensures Attached(text, lines, i, desc, ScanDesc(text, lines, i, desc))
    decreases i + 1, 0
  {
    ScanStep(text, lines, i, desc);
    ProseLink(text, lines, i, desc);
    ScanAttaches(text, lines, i - 1, Piece(text, lines[i]) + desc);
  }

  /** What one prose line contributes to the run: it ends in its newline and comes before `desc`. */
  lemma ProseLink(text: string, lines: seq<Line>, i: int, desc: string)
    requires Indexed(text, lines) && Terminated(text, lines)
    requires 0 <= i < |lines| - 1 && Continues(text, lines, i) && !IsDirective(text, lines[i])
    requires desc == "" || desc[|desc| - 1] == '\n'
    ensures var t := Piece(text, lines[i]) + desc; t[|t| - 1] == '\n'
    ensures DescStep(text, lines[i], desc) == Piece(text, lines[i]) + desc
    ensures forall c :: Attached(text, lines, i - 1, Piece(text, lines[i]) + desc, c) ==> Attached(text, lines, i, desc, c)
  {
    ProseLine(text, lines, i, desc);
    var t := Piece(text, lines[i]);
    assert (t + desc)[|t + desc| - 1] == '\n' by {
      if desc == "" {
        assert t + desc == t;
      }
    }
    forall c | Attached(text, lines, i - 1, t + desc, c)
      ensures Attached(text, lines, i, desc, c)
    {
      AttachedProse(text, lines, i, desc, c);
    }
  }

  /** The comment block of a binding declared on 1-based line `line` of the file. */
  lemma CommentBlock(text: string, line: int)
    requires 1 <= line <= |LinesFrom(text, 0)|
    ensures Indexed(text, LinesFrom(text, 0))
    ensures Attached(text, LinesFrom(text, 0), line - 2, "", ScanDesc(text, LinesFrom(text, 0), line - 2, ""))
  {
    LinesIndexed(text, 0);
    LinesTerminated(text);
    BlockAttaches(text, LinesFrom(text, 0), line);
  }

  lemma BlockAttaches(text: string, lines: seq<Line>, line: int)
    requires Indexed(text, lines) && Terminated(text, lines) && 1 <= line <= |lines|
    ensures Attached(text, lines, line - 2, "", ScanDesc(text, lines, line - 2, ""))
  {
    ScanAttaches(text, lines, line - 2, "");
  }
}
