/**
 * The documentation extractor of src/parse.c: the line index of a file, the
 * comment block above each binding, and the walk over the host parser's
 * token tree that turns bindings into documentation items.
 *
 * Positions are offsets into the file text.  The token tree is the host
 * parser's `struct Token` after cloning, kept as a value; a NULL pointer is
 * the `Null` token.  The lists the walk appends to are threaded through as
 * values (`Lists`), and each walker returns the lists it leaves behind.
 */
module Parse {
  import opened Wrappers
  import opened Strings
  import opened Marker

  // ---------------------------------------------------------------------------
  // Records (src/parse.h)

  /** `struct param`; a parameter of an unrecognised shape has no name. */
  datatype Param = Param(name: Option<string>, variable: bool, optional: bool)

  /** `enum item_type` together with the `items` list each kind carries. */
  datatype ItemKind = VarItem | FuncItem(params: seq<Param>) | ClassItem(members: seq<Item>)

  /** `struct item`. */
  datatype Item = Item(filename: string, line: int, name: string, desc: string, kind: ItemKind)

  /** `struct module`; the fields a freshly created path node leaves unset are `None`. */
  datatype Module = Module(
    filename: Option<string>, line: Option<int>, name: string, desc: Option<string>,
    children: seq<Module>, items: seq<Item>)

  // ---------------------------------------------------------------------------
  // The host parser's tokens

  /** The token types the walk tests; every other type is `OtherKind`. */
  datatype TokKind =
    | TopKind | SemiKind | AssignKind | VarKind | SymbolKind | LParKind | CommaKind
    | ColonKind | LCurlKind | FuncKind | EllipsisKind | OtherKind

  /** `struct Token`: a NULL pointer is `Null`. */
  datatype Token =
    | Null
    | Token(kind: TokKind, children: Token, lastChild: Token, next: Token, str: string, line: int)

  /** The token is present and has type `k` (`tok && tok->type == k`). */
  predicate Is(t: Token, k: TokKind)
  {
    t.Token? && t.kind == k
  }

  // ---------------------------------------------------------------------------
  // Line index (the loop in `parse_file`)

  /** `struct line` without `doc_used`: where the line starts, where its text starts after blanks, its length. */
  datatype Line = Line(start: nat, startNows: nat, length: nat)

  /**
   * The records for the lines from `start` on: each line runs to just past
   * its newline, and the last one to the end of the text.
   */
  function LinesFrom(text: string, start: nat): (ls: seq<Line>)
    requires start <= |text|
    ensures |ls| >= 1 && ls[0].start == start && ls[0].startNows == SkipBlanks(text, start)
    decreases |text| - start
  {
    var nl := IndexOf(text, '\n', start);
    if nl == -1 then [Line(start, SkipBlanks(text, start), |text| - start)]
    else [Line(start, SkipBlanks(text, start), nl + 1 - start)] + LinesFrom(text, nl + 1)
  }

  /** The records found so far, followed by the records from the next line on, are all the records. */
  lemma LinesStep(text: string, done: seq<Line>, current: nat, nl: int)
    requires current <= |text| && nl == IndexOf(text, '\n', current) && nl != -1
    requires done + LinesFrom(text, current) == LinesFrom(text, 0)
    ensures (done + [Line(current, SkipBlanks(text, current), nl + 1 - current)]) + LinesFrom(text, nl + 1) == LinesFrom(text, 0)
  {
    LinesCons(text, current, nl);
  }

  /** A line ended by a newline is followed by the records of the lines after it. */
  lemma LinesCons(text: string, start: nat, nl: int)
    requires start <= |text| && nl == IndexOf(text, '\n', start) && nl != -1
    ensures LinesFrom(text, start) == [Line(start, SkipBlanks(text, start), nl + 1 - start)] + LinesFrom(text, nl + 1)
  {
  }

  /** The record of the line no newline ends is the last one. */
  lemma LinesLast(text: string, done: seq<Line>, current: nat)
    requires current <= |text| && IndexOf(text, '\n', current) == -1
    requires done + LinesFrom(text, current) == LinesFrom(text, 0)
    ensures done + [Line(current, SkipBlanks(text, current), |text| - current)] == LinesFrom(text, 0)
  {
  }

  /** The `do ... while` loop of `parse_file` that splits the file into line records. */
  method BuildLines(text: string) returns (lines: seq<Line>)
    ensures lines == LinesFrom(text, 0)
  {
    hide LinesFrom;
    var current := 0;
    ghost var done: seq<Line> := [];
    ghost var all := LinesFrom(text, 0);
    lines := [Line(current, SkipBlanks(text, current), 0)];
    while true
      invariant current <= |text|
      invariant lines == done + [Line(current, SkipBlanks(text, current), 0)]
      invariant done + LinesFrom(text, current) == all
      decreases |text| - current
    {
      var nl := IndexOf(text, '\n', current);
      if nl == -1 {
        break;
      }
      lines, done := NextRecord(text, lines, done, current, nl);
      current := nl + 1;
    }
    LinesLast(text, done, current);
    var last := |lines| - 1;
    SetLast(done, lines[last], |text| - current);
    lines := lines[last := lines[last].(length := |text| - lines[last].start)];
  }

  /** One turn of the loop: the current record ends just past the newline at `nl`, and the next one starts there. */
  method NextRecord(text: string, lines: seq<Line>, ghost done: seq<Line>, current: nat, nl: int)
    returns (lines': seq<Line>, ghost done': seq<Line>)
    requires current <= |text| && nl == IndexOf(text, '\n', current) && nl != -1
    requires lines == done + [Line(current, SkipBlanks(text, current), 0)]
    requires done + LinesFrom(text, current) == LinesFrom(text, 0)
    ensures lines' == done' + [Line(nl + 1, SkipBlanks(text, nl + 1), 0)]
    ensures done' + LinesFrom(text, nl + 1) == LinesFrom(text, 0)
  {
    LinesStep(text, done, current, nl);
    var last := |lines| - 1;
    SetLast(done, lines[last], nl + 1 - current);
    lines' := lines[last := lines[last].(length := nl + 1 - lines[last].start)];
    done' := done + [Line(current, SkipBlanks(text, current), nl + 1 - current)];
    lines' := lines' + [Line(nl + 1, SkipBlanks(text, nl + 1), 0)];
  }

  /** Setting the length of the last record. */
  lemma SetLast(done: seq<Line>, r: Line, length: nat)
    ensures (done + [r])[|done| := r.(length := length)] == done + [r.(length := length)]
  {
    assert (done + [r])[|done| := r.(length := length)][..|done|] == done;
  }

  // ---------------------------------------------------------------------------
  // The comment block above a binding (the loop in `process_item`)

  /** The text is the file; the line records index it; `fileName` is the current file. */
  datatype Source = Source(fileName: string, text: string, lines: seq<Line>)

  /**
   * Record `r` lies within the text, its text starts after its blanks, and
   * it holds no newline except as its last character, which is a newline
   * unless the record reaches the end of the text.
   */
  predicate LineOk(text: string, r: Line)
  {
    r.start <= r.startNows <= |text|
    && r.start + r.length <= |text|
    && r.startNows == SkipBlanks(text, r.start)
    && (forall k :: r.start <= k < r.start + r.length - 1 ==> text[k] != '\n')
    && (r.start + r.length == |text| || (r.length >= 1 && text[r.start + r.length - 1] == '\n'))
  }

  /** Every line record is well placed in the text. */
  predicate Indexed(text: string, lines: seq<Line>)
  {
    forall i :: 0 <= i < |lines| ==> LineOk(text, lines[i])
  }

  /** The records `BuildLines` produces index the text. */
  lemma {:induction false} LinesIndexed(text: string, start: nat)
    requires start <= |text|
    ensures Indexed(text, LinesFrom(text, start))
    decreases |text| - start
  {
    var nl := IndexOf(text, '\n', start);
    if nl != -1 {
      LinesIndexed(text, nl + 1);
      var r := Line(start, SkipBlanks(text, start), nl + 1 - start);
      EndedLineOk(text, start, nl);
      LinesCons(text, start, nl);
      ConsIndexed(text, r, LinesFrom(text, nl + 1));
    } else {
      LastLineOk(text, start);
    }
  }

  /** A record that runs to just past the first newline from `start` is well placed. */
  lemma EndedLineOk(text: string, start: nat, nl: int)
    requires start <= |text| && nl == IndexOf(text, '\n', start) && nl != -1
    ensures LineOk(text, Line(start, SkipBlanks(text, start), nl + 1 - start))
  {
  }

  /** A record that runs from `start` to the end of a text with no newline after `start` is well placed. */
  lemma LastLineOk(text: string, start: nat)
    requires start <= |text| && IndexOf(text, '\n', start) == -1
    ensures LineOk(text, Line(start, SkipBlanks(text, start), |text| - start))
  {
  }

  /** A well-placed record in front of well-placed records. */
  lemma ConsIndexed(text: string, r: Line, rest: seq<Line>)
    requires LineOk(text, r) && Indexed(text, rest)
    ensures Indexed(text, [r] + rest)
  {
    forall i | 0 <= i < |[r] + rest|
      ensures LineOk(text, ([r] + rest)[i])
    {
      if i > 0 {
        assert ([r] + rest)[i] == rest[i - 1];
      }
    }
  }

  /** Line `r` is a comment: its first non-blank character is `#`. */
  predicate IsComment(text: string, r: Line)
  {
    r.startNows < |text| && text[r.startNows] == '#'
  }

  /** Where the text of a comment line starts once the `#` run and the blanks after it are skipped. */
  function TextStart(text: string, r: Line): nat
    requires r.startNows <= |text|
  {
    SkipBlanks(text, SkipChar(text, r.startNows, '#'))
  }

  /** The end of line `r`, just past its newline. */
  function LineEnd(r: Line): nat
  {
    r.start + r.length
  }

  /** The scan goes on at line index `i`: the line exists and is a comment. */
  predicate Continues(text: string, lines: seq<Line>, i: int)
  {
    0 <= i < |lines| && IsComment(text, lines[i])
  }

  /** The text of comment line `r` is a directive: it starts with `@`. */
  predicate IsDirective(text: string, r: Line)
  {
    r.startNows <= |text| && TextStart(text, r) < LineEnd(r) <= |text| && text[TextStart(text, r)] == '@'
  }

  /** What the scan leaves of the description, and the lowest line it visited. */
  datatype Gathered = Gathered(desc: string, first: int)

  /**
   * Prepends the text of one prose line and makes the last character of the
   * whole description a newline.
   */
  function Prepend(t: string, desc: string): string
  {
    var d := t + desc;
    if |d| > 0 then d[|d| - 1 := '\n'] else d
  }

  /** What comment line `r` does to the description: a prose line is prepended, a directive adds nothing. */
  function DescStep(text: string, r: Line, desc: string): string
  {
    if IsDirective(text, r) then desc
    else if r.startNows <= |text| && TextStart(text, r) <= LineEnd(r) <= |text| then
      Prepend(text[TextStart(text, r)..LineEnd(r)], desc)
    else desc
  }

  /** What comment line `r` does to the directives: a directive line goes to the directive parser. */
  function DirectiveStep(text: string, r: Line, m: MarkerState): MarkerState
  {
    if IsDirective(text, r) then
      var p := TextStart(text, r);
      ParseMarkerSpec(m, text[p..], LineEnd(r) - p)
    else m
  }

  /**
   * The description the scan builds from line index `i` towards the top of
   * the file, going on while the line is a comment.
   */
  function ScanDesc(text: string, lines: seq<Line>, i: int, desc: string): (g: Gathered)
    ensures g.first <= i + 1
    decreases i + 1
  {
    if !Continues(text, lines, i) then Gathered(desc, i + 1)
    else ScanDesc(text, lines, i - 1, DescStep(text, lines[i], desc))
  }

  /** The directives the same scan sends to the directive parser, from the bottom line up. */
  function ScanDirectives(text: string, lines: seq<Line>, i: int, m: MarkerState): MarkerState
    decreases i + 1
  {
    if !Continues(text, lines, i) then m
    else ScanDirectives(text, lines, i - 1, DirectiveStep(text, lines[i], m))
  }

  /** The text of a comment line starts within that line. */
  lemma TextWithinLine(text: string, lines: seq<Line>, i: int)
    requires Indexed(text, lines) && Continues(text, lines, i)
    ensures TextStart(text, lines[i]) <= LineEnd(lines[i]) <= |text|
  {
  }

  /** The description and directives of the binding declared on 1-based line `line`. */
  method CollectComment(text: string, lines: seq<Line>, line: int)
    returns (desc: string, markers: MarkerState, first: int)
    requires Indexed(text, lines)
    ensures Gathered(desc, first) == ScanDesc(text, lines, line - 2, "")
    ensures markers == ScanDirectives(text, lines, line - 2, NoMarkers())
  {
    desc := "";
    var acc := new Markers();
    var i := line - 2;
    ghost var wantDesc := ScanDesc(text, lines, line - 2, "");
    ghost var wantMarkers := ScanDirectives(text, lines, line - 2, NoMarkers());
    while i >= 0 && i < |lines| && IsComment(text, lines[i])
      invariant i <= line - 2
      invariant ScanDesc(text, lines, i, desc) == wantDesc
      invariant ScanDirectives(text, lines, i, acc.State()) == wantMarkers
      decreases i + 1
    {
      ghost var d0, m0 := desc, acc.State();
      desc := ScanLine(text, lines, i, desc, acc);
      ghost var m1 := acc.State();
      ScanStep(text, lines, i, d0, m0);
      assert ScanDirectives(text, lines, i - 1, m1) == wantMarkers;
      i := i - 1;
    }
    markers := acc.State();
    first := i + 1;
  }

  /** One step of both scans, on a line that continues the comment. */
  lemma ScanStep(text: string, lines: seq<Line>, i: int, desc: string, m: MarkerState)
    requires Continues(text, lines, i)
    ensures ScanDesc(text, lines, i, desc) == ScanDesc(text, lines, i - 1, DescStep(text, lines[i], desc))
    ensures ScanDirectives(text, lines, i, m) == ScanDirectives(text, lines, i - 1, DirectiveStep(text, lines[i], m))
  {
  }

  /** One visited comment line: a directive goes to `acc`, prose is prepended to `desc`. */
  method ScanLine(text: string, lines: seq<Line>, i: int, desc: string, acc: Markers) returns (desc': string)
    requires Indexed(text, lines) && Continues(text, lines, i)
    modifies acc
    ensures desc' == DescStep(text, lines[i], desc)
    ensures acc.State() == DirectiveStep(text, lines[i], old(acc.State()))
  {
    var p := TextStart(text, lines[i]);
    var e := LineEnd(lines[i]);
    TextWithinLine(text, lines, i);
    desc' := desc;
    if p < e && text[p] == '@' {
      DirectiveLine(text, lines[i], acc);
    } else {
      assert !IsDirective(text, lines[i]);
      desc' := PrependLine(text[p..e], desc);
    }
  }

  /** A directive line: its text, from the `@` on, goes to the directive parser. */
  method DirectiveLine(text: string, r: Line, acc: Markers)
    requires IsDirective(text, r)
    modifies acc
    ensures acc.State() == DirectiveStep(text, r, old(acc.State()))
  {
    hide ParseMarkerSpec;
    var p := TextStart(text, r);
    DirectiveStepIs(text, r, acc.State());
    acc.ParseMarker(text[p..], LineEnd(r) - p);
  }

  lemma DirectiveStepIs(text: string, r: Line, m: MarkerState)
    requires IsDirective(text, r)
    ensures DirectiveStep(text, r, m) == ParseMarkerSpec(m, text[TextStart(text, r)..], LineEnd(r) - TextStart(text, r))
  {
    hide ParseMarkerSpec;
  }

  /** The reallocated description: the line's text, then the old description, its last character a newline. */
  method PrependLine(t: string, desc: string) returns (d: string)
    ensures d == Prepend(t, desc)
    ensures |d| == |t| + |desc|
    ensures |d| > 0 ==> d[|d| - 1] == '\n'
  {
    var length := |desc| + |t|;
    d := t + desc;
    if length > 0 {
      d := d[length - 1 := '\n'];
    }
  }

  // ---------------------------------------------------------------------------
  // Flags, visibility and classification (`process_item`)

  /** More than one of var, module and class clears all three; public with private clears both. */
  function Resolve(m: MarkerState): (r: MarkerState)
    ensures KindCount(r) <= 1 && !(r.flags.fPublic && r.flags.fPrivate)
    ensures KindCount(m) <= 1 ==> r.flags.fVar == m.flags.fVar && r.flags.fModule == m.flags.fModule && r.flags.fClass == m.flags.fClass
    ensures KindCount(m) > 1 ==> !r.flags.fVar && !r.flags.fModule && !r.flags.fClass
    ensures !(m.flags.fPublic && m.flags.fPrivate) ==> r.flags.fPublic == m.flags.fPublic && r.flags.fPrivate == m.flags.fPrivate
    ensures m.flags.fPublic && m.flags.fPrivate ==> !r.flags.fPublic && !r.flags.fPrivate
    ensures r.(flags := m.flags) == m
    ensures r.flags.(fVar := m.flags.fVar, fModule := m.flags.fModule, fClass := m.flags.fClass,
                     fPublic := m.flags.fPublic, fPrivate := m.flags.fPrivate) == m.flags
  {
    var f := if KindCount(m) > 1 then m.flags.(fVar := false, fModule := false, fClass := false) else m.flags;
    m.(flags := if f.fPublic && f.fPrivate then f.(fPublic := false, fPrivate := false) else f)
  }

  /** How many of the var, module and class flags are set. */
  function KindCount(m: MarkerState): nat
  {
    (if m.flags.fVar then 1 else 0) + (if m.flags.fModule then 1 else 0) + (if m.flags.fClass then 1 else 0)
  }

  /** A binding that is private, or whose name starts with `_` without being public, is not documented. */
  predicate Hidden(m: MarkerState, name: string)
  {
    m.flags.fPrivate || (|name| > 0 && name[0] == '_' && !m.flags.fPublic)
  }

  /** The two lists a walker appends to: nested modules and items. */
  datatype Lists = Lists(children: seq<Module>, items: seq<Item>)

  /** The walkers only ever append: what `acc` held stays where it was in `r`. */
  predicate Grows(acc: Lists, r: Lists)
  {
    acc.children <= r.children && acc.items <= r.items
  }

  /** The node count of a token tree, for termination of the walkers' loops. */
  function Size(t: Token): nat
  {
    if t.Null? then 0 else 1 + Size(t.children) + Size(t.lastChild) + Size(t.next)
  }

  /**
   * `process_item` for the binding `name` declared on line `line` with
   * value `rhs`; `nest` says whether `module_children` is present.
   */
  function ProcessItemF(src: Source, line: int, name: string, rhs: Token, nest: bool, acc: Lists): (r: Lists)
    requires Indexed(src.text, src.lines)
    ensures Grows(acc, r)
    ensures |r.children| + |r.items| <= |acc.children| + |acc.items| + 1
    ensures !nest ==> r.children == acc.children
    decreases Size(rhs), 1
  {
    var c := ScanDesc(src.text, src.lines, line - 2, "");
    var m := Resolve(ScanDirectives(src.text, src.lines, line - 2, NoMarkers()));
    if Hidden(m, name) then acc
    else
      var item := Item(src.fileName, line, name, c.desc, VarItem);
      if Is(rhs, LCurlKind) && !m.flags.fVar then
        if m.flags.fModule && nest then
          var inner := ParseObjectF(src, rhs, true, Lists([], []));
          acc.(children := acc.children + [Module(Some(src.fileName), Some(line), name, Some(c.desc), inner.children, inner.items)])
        else
          var inner := ParseObjectF(src, rhs, false, Lists([], []));
          acc.(items := acc.items + [item.(kind := ClassItem(inner.items))])
      else if Is(rhs, FuncKind) && !m.flags.fVar then
        acc.(items := acc.items + [item.(kind := FuncItem(ParseFunctionF(rhs)))])
      else acc.(items := acc.items + [item])
  }

  /** `parse_object`: the members of an object literal. */
  function ParseObjectF(src: Source, tok: Token, nest: bool, acc: Lists): (r: Lists)
    requires Indexed(src.text, src.lines) && tok.Token?
    ensures Grows(acc, r)
    ensures !nest ==> r.children == acc.children
    decreases Size(tok), 0
  {
    ObjectChain(src, tok.children, nest, acc)
  }

  /** The comma chain of an object literal, member by member. */
  function ObjectChain(src: Source, item: Token, nest: bool, acc: Lists): (r: Lists)
    requires Indexed(src.text, src.lines)
    ensures Grows(acc, r)
    ensures !nest ==> r.children == acc.children
    decreases Size(item), 1
  {
    if Is(item, CommaKind) then ObjectChain(src, item.lastChild, nest, ObjectItem(src, item.children, nest, acc))
    else ObjectItem(src, item, nest, acc)
  }

  /** `parse_object_item`: only a `SYMBOL : value` member is a binding. */
  function ObjectItem(src: Source, tok: Token, nest: bool, acc: Lists): (r: Lists)
    requires Indexed(src.text, src.lines)
    ensures Grows(acc, r)
    ensures !nest ==> r.children == acc.children
    decreases Size(tok), 0
  {
    if !Is(tok, ColonKind) || tok.children.Null? || tok.children.next.Null? then acc
    else if tok.children.kind != SymbolKind then acc
    else ProcessItemF(src, tok.children.line, tok.children.str, tok.lastChild, nest, acc)
  }

  /** `parse_param`: the parameter one element of a parameter list gives, if any. */
  function ParseParamF(tok: Token): (r: Option<Param>)
    ensures r.Some? ==> !(r.value.variable && r.value.optional)
    ensures r.Some? && r.value.name.None? ==> !r.value.variable && !r.value.optional
    ensures r.None? <==> tok.Null? || (tok.kind in {AssignKind, EllipsisKind} && !Is(tok.children, SymbolKind))
  {
    match tok
    case Null => None
    case Token(kind, children, _, _, str, _) =>
      if kind == SymbolKind then Some(Param(Some(str), false, false))
      else if kind == AssignKind then
        if Is(children, SymbolKind) then Some(Param(Some(children.str), false, true)) else None
      else if kind == EllipsisKind then
        if Is(children, SymbolKind) then Some(Param(Some(children.str), true, false)) else None
      else Some(Param(None, false, false))
  }

  /** The parameter an element gives, as a list of at most one. */
  function ParamOf(tok: Token): seq<Param>
  {
    match ParseParamF(tok)
    case None => []
    case Some(p) => [p]
  }

  /** The comma chain of a parameter list, appended to `params`. */
  function ParamChain(item: Token, params: seq<Param>): seq<Param>
    decreases Size(item)
  {
    if Is(item, CommaKind) then ParamChain(item.lastChild, params + ParamOf(item.children))
    else params + ParamOf(item)
  }

  /** `parse_function`: the parameters of a function literal with a parenthesised parameter list. */
  function ParseFunctionF(tok: Token): seq<Param>
    requires tok.Token?
  {
    if !Is(tok.children, LParKind) then [] else ParamChain(tok.children.children, [])
  }

  // ---------------------------------------------------------------------------
  // The top-level walk (`parse_toplevel`)

  /** `parse_toplevel`: only `TOP` and `SEMI` chains are walked, down to the assignments. */
  function ParseToplevelF(src: Source, tok: Token, acc: Lists): (r: Lists)
    requires Indexed(src.text, src.lines)
    ensures Grows(acc, r)
  {
    match tok
    case Null => acc
    case Token(kind, children, lastChild, _, _, _) =>
      if kind == TopKind then ParseToplevelF(src, lastChild, acc)
      else if kind == SemiKind then ParseToplevelF(src, lastChild, ParseToplevelF(src, children, acc))
      else if kind == AssignKind then AssignF(src, tok, acc)
      else acc
  }

  /** An assignment: `var NAME = e`, or a destructuring `(var a, var b) = (...)` / `var (a, b) = (...)`. */
  function AssignF(src: Source, tok: Token, acc: Lists): (r: Lists)
    requires Indexed(src.text, src.lines) && tok.Token?
    ensures Grows(acc, r)
    ensures Is(tok.children, SymbolKind) ==> r == acc
  {
    if tok.children.Null? || tok.lastChild.Null? then acc
    else
      var chch := tok.children.children;
      if chch.Null? then acc
      else if tok.children.kind == VarKind && chch.kind == SymbolKind then
        ProcessItemF(src, chch.line, chch.str, tok.lastChild, true, acc)
      else if tok.children.kind == LParKind || (tok.children.kind == VarKind && chch.kind == LParKind) then
        if !Is(tok.lastChild, LParKind) || tok.lastChild.children.Null? then acc
        else
          var expectVar := tok.children.kind == LParKind;
          Destructure(src, if expectVar then chch else chch.children, tok.lastChild.children, expectVar, acc)
      else acc
  }

  /** The name a destructuring target binds: `var NAME` when `expectVar`, else a bare symbol. */
  function TargetName(lhp: Token, expectVar: bool): Option<string>
    requires lhp.Token?
  {
    if expectVar then
      if lhp.kind == VarKind && Is(lhp.children, SymbolKind) then Some(lhp.children.str) else None
    else if lhp.kind == SymbolKind then Some(lhp.str) else None
  }

  /** The element of a comma chain at its head. */
  function Head(t: Token): Token
    requires t.Token?
  {
    if t.kind == CommaKind then t.children else t
  }

  /** The rest of a comma chain, or `Null` when the chain ends here. */
  function Tail(t: Token): Token
    requires t.Token?
  {
    if t.kind == CommaKind then t.lastChild else Null
  }

  /** The destructuring loop: targets and values are paired position by position until either chain ends. */
  function Destructure(src: Source, lhs: Token, rhs: Token, expectVar: bool, acc: Lists): (r: Lists)
    requires Indexed(src.text, src.lines)
    ensures Grows(acc, r)
    decreases Size(lhs)
  {
    if lhs.Null? || rhs.Null? then acc
    else
      var lhp := Head(lhs);
      var rhp := Head(rhs);
      var acc1 :=
        if lhp.Token? && rhp.Token? && TargetName(lhp, expectVar).Some? then
          ProcessItemF(src, lhp.line, TargetName(lhp, expectVar).value, rhp, true, acc)
        else acc;
      if Tail(lhs).Token? && Tail(rhs).Token? then Destructure(src, Tail(lhs), Tail(rhs), expectVar, acc1)
      else acc1
  }

  // ---------------------------------------------------------------------------
  // The walkers as the source runs them

  /** `process_item`. */
  method ProcessItem(src: Source, line: int, name: string, rhs: Token, nest: bool, acc: Lists) returns (r: Lists)
    requires Indexed(src.text, src.lines)
    ensures r == ProcessItemF(src, line, name, rhs, nest, acc)
    decreases Size(rhs), 1
  {
    var desc, markers, _ := CollectComment(src.text, src.lines, line);
    var m := Resolve(markers);
    if Hidden(m, name) {
      return acc;
    }
    var item := Item(src.fileName, line, name, desc, VarItem);
    r := acc.(items := acc.items + [item]);
    if Is(rhs, LCurlKind) && !m.flags.fVar {
      if m.flags.fModule && nest {
        r := r.(items := r.items[..|r.items| - 1]);
        assert r.items == acc.items;
        var inner := ParseObject(src, rhs, true, Lists([], []));
        var submodule := Module(Some(src.fileName), Some(line), name, Some(desc), inner.children, inner.items);
        r := r.(children := r.children + [submodule]);
      } else {
        var inner := ParseObject(src, rhs, false, Lists([], []));
        r := r.(items := acc.items + [item.(kind := ClassItem(inner.items))]);
      }
    } else if Is(rhs, FuncKind) && !m.flags.fVar {
      var params := ParseFunction(rhs);
      r := r.(items := acc.items + [item.(kind := FuncItem(params))]);
    }
  }

  /** `parse_object`: walks the comma chain of an object literal. */
  method ParseObject(src: Source, tok: Token, nest: bool, acc: Lists) returns (r: Lists)
    requires Indexed(src.text, src.lines) && tok.Token?
    ensures r == ParseObjectF(src, tok, nest, acc)
    decreases Size(tok), 0
  {
    var item := tok.children;
    r := acc;
    while Is(item, CommaKind)
      invariant Size(item) < Size(tok)
      invariant ObjectChain(src, item, nest, r) == ParseObjectF(src, tok, nest, acc)
      decreases Size(item)
    {
      r := ParseObjectItem(src, item.children, nest, r);
      item := item.lastChild;
    }
    r := ParseObjectItem(src, item, nest, r);
  }

  /** `parse_object_item`. */
  method ParseObjectItem(src: Source, tok: Token, nest: bool, acc: Lists) returns (r: Lists)
    requires Indexed(src.text, src.lines)
    ensures r == ObjectItem(src, tok, nest, acc)
    decreases Size(tok), 2
  {
    if !Is(tok, ColonKind) || tok.children.Null? || tok.children.next.Null? {
      return acc;
    }
    if tok.children.kind != SymbolKind {
      return acc;
    }
    r := ProcessItem(src, tok.children.line, tok.children.str, tok.lastChild, nest, acc);
  }

  /** `parse_function`: pushes one parameter per recognised element of the parameter list. */
  method ParseFunction(tok: Token) returns (params: seq<Param>)
    requires tok.Token?
    ensures params == ParseFunctionF(tok)
  {
    params := [];
    if !Is(tok.children, LParKind) {
      return;
    }
    var item := tok.children.children;
    while Is(item, CommaKind)
      invariant ParamChain(item, params) == ParseFunctionF(tok)
      decreases Size(item)
    {
      params := params + ParamOf(item.children);
      item := item.lastChild;
    }
    params := params + ParamOf(item);
  }

  /** `parse_toplevel`. */
  method ParseToplevel(src: Source, tok: Token, acc: Lists) returns (r: Lists)
    requires Indexed(src.text, src.lines)
    ensures r == ParseToplevelF(src, tok, acc)
  {
    if tok.Null? {
      return acc;
    }
    if tok.kind == TopKind {
      r := ParseToplevel(src, tok.lastChild, acc);
    } else if tok.kind == SemiKind {
      r := ParseToplevel(src, tok.children, acc);
      r := ParseToplevel(src, tok.lastChild, r);
    } else if tok.kind == AssignKind {
      r := Assign(src, tok, acc);
    } else {
      r := acc;
    }
  }

  /** The `TOK_ASSIGN` case of `parse_toplevel`, with its destructuring loop. */
  method Assign(src: Source, tok: Token, acc: Lists) returns (r: Lists)
    requires Indexed(src.text, src.lines) && tok.Token?
    ensures r == AssignF(src, tok, acc)
  {
    r := acc;
    if tok.children.Null? || tok.lastChild.Null? {
      return;
    }
    var chch := tok.children.children;
    if chch.Null? {
      return;
    }
    if tok.children.kind == VarKind && chch.kind == SymbolKind {
      r := ProcessItem(src, chch.line, chch.str, tok.lastChild, true, acc);
    } else if tok.children.kind == LParKind || (tok.children.kind == VarKind && chch.kind == LParKind) {
      if !Is(tok.lastChild, LParKind) || tok.lastChild.children.Null? {
        return;
      }
      var expectVar := tok.children.kind == LParKind;
      r := DestructureLoop(src, if expectVar then chch else chch.children, tok.lastChild.children, expectVar, acc);
    }
  }

  /** The loop of the destructuring case: the two comma chains walked in step. */
  method DestructureLoop(src: Source, lhs: Token, rhs: Token, expectVar: bool, acc: Lists) returns (r: Lists)
    requires Indexed(src.text, src.lines)
    ensures r == Destructure(src, lhs, rhs, expectVar, acc)
  {
    r := acc;
    var l, h := lhs, rhs;
    while l.Token? && h.Token?
      invariant Destructure(src, l, h, expectVar, r) == Destructure(src, lhs, rhs, expectVar, acc)
      decreases Size(l)
    {
      var lhp := Head(l);
      var rhp := Head(h);
      if lhp.Token? && rhp.Token? {
        var name := TargetName(lhp, expectVar);
        if name.Some? {
          r := ProcessItem(src, lhp.line, name.value, rhp, true, r);
        }
      }
      if Tail(l).Token? {
        l := Tail(l);
      } else {
        break;
      }
      if Tail(h).Token? {
        h := Tail(h);
      } else {
        break;
      }
    }
  }

  /**
   * What `parse_file` does once the host parser has produced the token tree
   * `root` of the text: index the lines and walk the tree, appending what it
   * documents to `target`.
   */
  method ParseFile(fileName: string, text: string, root: Token, target: Module) returns (r: Module)
    ensures Indexed(text, LinesFrom(text, 0))
    ensures var after := ParseToplevelF(Source(fileName, text, LinesFrom(text, 0)), root, Lists(target.children, target.items));
      r == target.(children := after.children, items := after.items)
  {
    var lines := BuildLines(text);
    LinesIndexed(text, 0);
    var after := ParseToplevel(Source(fileName, text, lines), root, Lists(target.children, target.items));
    r := target.(children := after.children, items := after.items);
  }
}
