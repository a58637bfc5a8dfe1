/**
 * Whole directive lines read back: a line written in the documented form
 * `@word arguments description` gives the entry it spells out.  The lines are
 * followed by arbitrary further text `rest`, since the directive parser sees
 * the file from the `@` on.
 */
module MarkerLines {
  import opened Wrappers
  import opened Strings
  import opened TypeGrammar
  import opened TypePrinter
  import opened Marker
  import opened MarkerFacts

  // ---------------------------------------------------------------------------
  // Directive words written out in full

  lemma TypeSelects()
    ensures MatchDirective("type") == Some(AtType)
  {
    assert Matches("type", AtType);
    hide MatchDirective, Matches;
    forall e | Rank(e) < Rank(AtType) ensures !Matches("type", e) {
      NotMatchAt("type", e, 0);
    }
    MatchDirectiveSpec("type", AtType);
  }

  lemma InheritSelects()
    ensures MatchDirective("inherit") == Some(AtInherit)
  {
    assert Matches("inherit", AtInherit);
    hide MatchDirective, Matches;
    forall e | Rank(e) < Rank(AtInherit) ensures !Matches("inherit", e) {
      NotMatchAt("inherit", e, 0);
    }
    MatchDirectiveSpec("inherit", AtInherit);
  }

  lemma ParamSelects()
    ensures MatchDirective("param") == Some(AtParam)
  {
    assert Matches("param", AtParam);
    hide MatchDirective, Matches;
    forall e | Rank(e) < Rank(AtParam) ensures !Matches("param", e) {
      NotMatchAt("param", e, if e == AtPublic || e == AtPrivate then 1 else 0);
    }
    MatchDirectiveSpec("param", AtParam);
  }

  lemma PropSelects()
    ensures MatchDirective("prop") == Some(AtProp)
  {
    assert Matches("prop", AtProp);
    hide MatchDirective, Matches;
    forall e | Rank(e) < Rank(AtProp) ensures !Matches("prop", e) {
      NotMatchAt("prop", e, if e == AtPrivate then 2 else if e == AtPublic || e == AtParam then 1 else 0);
    }
    MatchDirectiveSpec("prop", AtProp);
  }

  lemma ReturnSelects()
    ensures MatchDirective("return") == Some(AtReturn)
  {
    assert Matches("return", AtReturn);
    hide MatchDirective, Matches;
    forall e | Rank(e) < Rank(AtReturn) ensures !Matches("return", e) {
      NotMatchAt("return", e, if e == AtReadonly then 2 else 0);
    }
    MatchDirectiveSpec("return", AtReturn);
  }

  // ---------------------------------------------------------------------------
  // Scanning a written line.  Positions are passed as parameters (`j == i + |w|`)
  // so that the facts the scans establish are about the same terms as the goals.

  /** A word of non-separators from `i` to `j`, closed by a separator or the end, is what `SkipWord` skips. */
  lemma WordAt(line: string, i: nat, j: nat, w: string)
    requires j == i + |w| && j <= |line| && line[i..j] == w
    requires forall k :: 0 <= k < |w| ==> !IsSep(w[k])
    requires j == |line| || IsSep(line[j])
    ensures SkipWord(line, i) == j
  {
    forall k | i <= k < j ensures !IsSep(line[k]) {
      assert line[k] == w[k - i];
    }
    SkipWordRun(line, i, j);
  }

  /** One separator at `i` followed by a non-separator is what `SkipSeps` skips. */
  lemma OneSep(line: string, i: nat, j: nat)
    requires j == i + 1 && j < |line| && IsSep(line[i]) && !IsSep(line[j])
    ensures SkipSeps(line, i) == j
  {
    SkipSepsRun(line, i, j);
  }

  lemma PrintAltNonEmpty(t: Type)
    requires PrintableType(t)
    ensures |PrintAlt(t)| > 0
  {
  }

  /** A printable typeset with at least one alternative prints as a non-empty word. */
  lemma PrintSetNonEmpty(ts: seq<Type>)
    requires PrintableSet(ts) && ts != []
    ensures |PrintSet(ts)| > 0
  {
    var strs := PrintAlts(ts);
    PrintAltNonEmpty(ts[0]);
    assert strs[0] == PrintAlt(ts[0]);
    if |strs| > 1 {
      assert JoinStr(strs, '|') == strs[0] + ['|'] + JoinStr(strs[1..], '|');
    }
  }

  /** What may follow a type word: nothing, or one blank and a description that starts with a non-separator. */
  predicate DescText(desc: Option<string>)
  {
    desc.Some? ==> |desc.value| > 0 && !IsSep(desc.value[0])
  }

  function DescSuffix(desc: Option<string>): string
  {
    if desc.Some? then " " + desc.value else ""
  }

  /** The description an entry gets back for `desc`: its text up to and including the newline. */
  function DescRead(desc: Option<string>): Option<string>
  {
    if desc.Some? then Some(desc.value + "\n") else None
  }

  /** The name word of a `param` or `prop` line, with the blank after it. */
  function NameText(name: Option<string>): string
  {
    if name.Some? then name.value + " " else ""
  }

  /** The text of a directive line: `@kw [name ]p[ desc]` and its newline, then the rest of the file. */
  function LineText(kw: string, name: Option<string>, p: string, desc: Option<string>, rest: string): string
  {
    "@" + (kw + (" " + (NameText(name) + (p + (DescSuffix(desc) + ("\n" + rest))))))
  }

  /** The length of the directive's own line within `LineText`. */
  function LineLength(kw: string, name: Option<string>, p: string, desc: Option<string>): nat
  {
    |kw| + 2 + |NameText(name)| + |p| + |DescSuffix(desc)| + 1
  }

  /** A word a line can carry: non-empty, without blanks or NUL. */
  predicate WordText(w: string)
  {
    |w| > 0 && Plain(w)
  }

  /** The text from `i` on is `a + b`: the `|a|` characters up to `j` are `a`, and `b` follows. */
  lemma Split(line: string, i: nat, j: nat, a: string, b: string)
    requires j == i + |a| && i <= |line| && line[i..] == a + b
    ensures j <= |line| && line[i..j] == a && line[j..] == b
  {
    assert line[i..j] == line[i..][..|a|];
    assert line[j..] == line[i..][|a|..];
  }

  /** A word ending at `e`, one separator, then a non-separator. */
  lemma WordThenSep(line: string, i: nat, e: nat, w: string, b: string)
    requires WordText(w) && e == i + |w| && i <= |line| && line[i..] == w + b
    requires |b| >= 2 && IsSep(b[0]) && !IsSep(b[1])
    ensures SkipWord(line, i) == e && line[i..e] == w
    ensures SkipSeps(line, e) == e + 1 && line[e + 1..] == b[1..]
  {
    Split(line, i, e, w, b);
    assert line[e] == b[0] && line[e + 1] == b[1];
    WordAt(line, i, e, w);
    OneSep(line, e, e + 1);
  }

  /** A word ending at `e`, one blank, then text from `next` on that starts with a non-separator. */
  lemma WordBlank(line: string, i: nat, e: nat, next: nat, w: string, tail: string)
    requires WordText(w) && e == i + |w| && next == e + 1 && i <= |line| && line[i..] == w + (" " + tail)
    requires |tail| > 0 && !IsSep(tail[0])
    ensures SkipWord(line, i) == e && line[i..e] == w
    ensures SkipSeps(line, e) == next && line[next..] == tail
  {
    WordThenSep(line, i, e, w, " " + tail);
    assert (" " + tail)[1..] == tail;
  }

  /** A word ending at `e` that ends its line. */
  lemma WordThenNewline(line: string, i: nat, e: nat, w: string, rest: string)
    requires WordText(w) && e == i + |w| && i <= |line| && line[i..] == w + ("\n" + rest)
    ensures e < |line|
    ensures SkipWord(line, i) == e && line[i..e] == w
    ensures SkipSeps(line, e) >= e + 1
  {
    Split(line, i, e, w, "\n" + rest);
    assert line[e] == '\n';
    WordAt(line, i, e, w);
  }

  /**
   * The type word and description of an entry line: from `targ` on the line
   * holds `p` up to `tend`, then the description text, then a newline that
   * ends the directive's line.  The description read back is the written one.
   */
  lemma TypeAndDesc(line: string, targ: nat, tend: nat, p: string, desc: Option<string>, rest: string, length: nat)
    requires WordText(p) && DescText(desc) && tend == targ + |p|
    requires targ <= |line| && line[targ..] == p + (DescSuffix(desc) + ("\n" + rest))
    requires length == tend + |DescSuffix(desc)| + 1
    ensures length <= |line|
    ensures SkipWord(line, targ) == tend && line[targ..tend] == p
    ensures Desc(line, tend, length) == DescRead(desc)
  {
    Split(line, targ, tend, p, DescSuffix(desc) + ("\n" + rest));
    hide Desc, SkipWord, SkipSeps;
    if desc.Some? {
      var d := desc.value;
      assert DescSuffix(desc) + ("\n" + rest) == " " + (d + ("\n" + rest));
      assert line[tend] == ' ';
      WordAt(line, targ, tend, p);
      DescAfterBlank(line, tend, d, rest, length);
    } else {
      assert line[tend..] == "\n" + rest;
      assert line[tend] == '\n';
      WordAt(line, targ, tend, p);
      DescAtNewline(line, tend, rest, length);
    }
  }

  /** A description after one blank is read up to and including its newline. */
  lemma DescAfterBlank(line: string, tend: nat, d: string, rest: string, length: nat)
    requires tend <= |line| && line[tend..] == " " + (d + ("\n" + rest))
    requires |d| > 0 && !IsSep(d[0]) && length == tend + 1 + |d| + 1
    ensures length <= |line| && Desc(line, tend, length) == Some(d + "\n")
  {
    assert line[tend] == ' ' && line[tend + 1] == d[0];
    OneSep(line, tend, tend + 1);
    assert line[tend + 1..] == (d + "\n") + rest;
    Split(line, tend + 1, length, d + "\n", rest);
  }

  /** A type word that ends its line leaves no description. */
  lemma DescAtNewline(line: string, tend: nat, rest: string, length: nat)
    requires tend <= |line| && line[tend..] == "\n" + rest && length == tend + 1
    ensures length <= |line| && Desc(line, tend, length) == None
  {
    assert line[tend] == '\n';
    assert SkipSeps(line, tend) >= tend + 1;
  }

  // ---------------------------------------------------------------------------
  // Round trips

  /** The directive word of a line `@kw after`, which ends at `me`, and where its argument starts. */
  lemma KeywordBlank(line: string, kw: string, after: string, me: nat, arg: nat)
    requires WordText(kw) && line == "@" + (kw + (" " + after)) && me == 1 + |kw| && arg == me + 1
    requires |after| > 0 && !IsSep(after[0])
    ensures SkipWord(line, 1) == me && WordOf(line) == kw
    ensures SkipSeps(line, me) == arg && line[arg..] == after
  {
    assert line[1..] == kw + (" " + after);
    WordBlank(line, 1, me, arg, kw, after);
  }

  /** Where the scans of the directive parser stop on a line `@kw p[ desc]` written by `LineText`. */
  lemma UnnamedLineFacts(kw: string, p: string, desc: Option<string>, rest: string, line: string, length: nat,
                         me: nat, targ: nat, tend: nat)
    requires WordText(kw) && WordText(p) && DescText(desc)
    requires line == LineText(kw, None, p, desc, rest) && length == LineLength(kw, None, p, desc)
    requires me == 1 + |kw| && targ == me + 1 && tend == targ + |p|
    ensures targ < length <= |line|
    ensures SkipWord(line, 1) == me && WordOf(line) == kw && SkipSeps(line, me) == targ
    ensures SkipWord(line, targ) == tend && line[targ..tend] == p
    ensures Desc(line, tend, length) == DescRead(desc)
  {
    var tail := p + (DescSuffix(desc) + ("\n" + rest));
    assert NameText(None) + tail == tail;
    KeywordBlank(line, kw, tail, me, targ);
    TypeAndDesc(line, targ, tend, p, desc, rest, length);
  }

  /** Where the scans of the directive parser stop on a line `@kw n p[ desc]` written by `LineText`. */
  lemma NamedLineFacts(kw: string, n: string, p: string, desc: Option<string>, rest: string,
                       line: string, length: nat, me: nat, arg: nat, nend: nat, targ: nat, tend: nat)
    requires WordText(kw) && WordText(n) && WordText(p) && DescText(desc)
    requires line == LineText(kw, Some(n), p, desc, rest) && length == LineLength(kw, Some(n), p, desc)
    requires me == 1 + |kw| && arg == me + 1 && nend == arg + |n| && targ == nend + 1 && tend == targ + |p|
    ensures targ < length <= |line|
    ensures SkipWord(line, 1) == me && WordOf(line) == kw && SkipSeps(line, me) == arg
    ensures SkipWord(line, arg) == nend && line[arg..nend] == n && SkipSeps(line, nend) == targ
    ensures SkipWord(line, targ) == tend && line[targ..tend] == p
    ensures Desc(line, tend, length) == DescRead(desc)
  {
    var tail := p + (DescSuffix(desc) + ("\n" + rest));
    assert NameText(Some(n)) + tail == n + (" " + tail);
    KeywordBlank(line, kw, n + (" " + tail), me, arg);
    WordBlank(line, arg, nend, targ, n, tail);
    TypeAndDesc(line, targ, tend, p, desc, rest, length);
  }

  /**
   * `@type T`, with the directive word written out or abbreviated: the printed
   * typeset's variants are appended to the type list.
   */
  lemma TypeLineRoundTrip(m: MarkerState, kw: string, ts: seq<Type>, rest: string, line: string, length: nat)
    requires MatchDirective(kw) == Some(AtType) && WordText(kw)
    requires PrintableSet(ts) && ts != []
    requires line == LineText(kw, None, PrintSet(ts), None, rest) && length == LineLength(kw, None, PrintSet(ts), None)
    ensures ParseMarkerSpec(m, line, length) == m.(types := Some(m.types.GetOr([]) + ts))
  {
    ParsePrint(ts);
    PrintSetNonEmpty(ts);
    TypeLineWord(m, kw, PrintSet(ts), rest, line, length);
  }

  /** `@type p`: the variants of the one word `p` are appended to the type list. */
  lemma TypeLineWord(m: MarkerState, kw: string, p: string, rest: string, line: string, length: nat)
    requires MatchDirective(kw) == Some(AtType) && WordText(kw) && WordText(p)
    requires line == LineText(kw, None, p, None, rest) && length == LineLength(kw, None, p, None)
    ensures ParseMarkerSpec(m, line, length) == m.(types := Some(m.types.GetOr([]) + ParseType(p)))
  {
    var me := 1 + |kw|;
    var targ := me + 1;
    var tend := targ + |p|;
    UnnamedLineFacts(kw, p, None, rest, line, length, me, targ, tend);
    hide LineText, LineLength, SkipWord, SkipSeps, Desc, ParseType;
    TypeLineAt(m, line, length, me, targ, tend, p);
    SpecDirected(m, line, length, AtType);
    assert !IsFlag(AtType);
  }

  /** The `type` branch on a line whose type word `p` runs from `targ` to `tend`. */
  lemma TypeLineAt(m: MarkerState, line: string, length: nat, me: nat, targ: nat, tend: nat, p: string)
    requires targ < length <= |line| && me <= |line| && SkipSeps(line, me) == targ
    requires SkipWord(line, targ) == tend && line[targ..tend] == p
    ensures TypeLine(m, line, length, me) == m.(types := Some(m.types.GetOr([]) + ParseType(p)))
  {
    hide ParseType, SkipWord, SkipSeps;
  }

  /** The first letter of a word that starts a keyword is the keyword's. */
  lemma FirstLetter(word: string, d: Directive)
    requires |word| > 0 && Matches(word, d)
    ensures word[0] == Keyword(d)[0]
  {
  }

  /** The `return` branch on a line whose type word `p` runs from `targ` to `tend`. */
  lemma EntryUnnamed(m: MarkerState, line: string, length: nat, word: string, me: nat, targ: nat, tend: nat,
                     p: string)
    requires targ < length <= |line| && me <= |line| && SkipSeps(line, me) == targ
    requires !Matches(word, AtParam) && !Matches(word, AtProp)
    requires SkipWord(line, targ) == tend && line[targ..tend] == p
    ensures Entry(m, line, length, word, me) == Pushed(m, SlotOf(word), "", Desc(line, tend, length), ParseType(p))
  {
    hide Pushed, SlotOf, ParseType, Desc, SkipWord, SkipSeps, Matches;
  }

  /** The `param` and `prop` branch on a line whose name runs from `arg` to `nend` and type word from `targ` to `tend`. */
  lemma EntryNamed(m: MarkerState, line: string, length: nat, word: string, me: nat,
                   arg: nat, nend: nat, name: string, targ: nat, tend: nat, p: string)
    requires arg < length <= |line| && me <= |line| && SkipSeps(line, me) == arg
    requires Matches(word, AtParam) || Matches(word, AtProp)
    requires SkipWord(line, arg) == nend && line[arg..nend] == name
    requires SkipSeps(line, nend) == targ
    requires targ < length && SkipWord(line, targ) == tend && line[targ..tend] == p
    ensures Entry(m, line, length, word, me) == Pushed(m, SlotOf(word), name, Desc(line, tend, length), ParseType(p))
  {
    hide Pushed, SlotOf, ParseType, Desc, SkipWord, SkipSeps, Matches;
  }

  /** A line whose word selects a directive does what that directive does. */
  lemma SpecDirected(m: MarkerState, line: string, length: nat, d: Directive)
    requires 1 <= length <= |line| && MatchDirective(WordOf(line)) == Some(d)
    ensures ParseMarkerSpec(m, line, length) == Directed(m, d, line, length)
  {
  }

  /** The `param`, `prop` and `return` directives take the entry branch. */
  lemma DirectedEntry(m: MarkerState, line: string, length: nat, d: Directive)
    requires 1 <= length <= |line| && d in {AtParam, AtProp, AtReturn}
    ensures Directed(m, d, line, length) == Entry(m, line, length, WordOf(line), SkipWord(line, 1))
  {
    assert !IsFlag(d);
  }

  /** `@return T desc`: one entry with the word's variants and the description is appended to the returns. */
  lemma ReturnLineWord(m: MarkerState, kw: string, p: string, desc: Option<string>, rest: string,
                       line: string, length: nat)
    requires MatchDirective(kw) == Some(AtReturn) && WordText(kw) && WordText(p) && DescText(desc)
    requires line == LineText(kw, None, p, desc, rest) && length == LineLength(kw, None, p, desc)
    ensures ParseMarkerSpec(m, line, length) ==
      m.(returnPairs := Some(m.returnPairs.GetOr([]) + [MarkerPair(DescRead(desc), ParseType(p))]))
  {
    var me := 1 + |kw|;
    var targ := me + 1;
    var tend := targ + |p|;
    UnnamedLineFacts(kw, p, desc, rest, line, length, me, targ, tend);
    hide LineText, LineLength, SkipWord, SkipSeps, Desc, ParseType, DescRead;
    ReturnSlotOf(kw);
    EntryUnnamed(m, line, length, kw, me, targ, tend, p);
    SpecDirected(m, line, length, AtReturn);
    DirectedEntry(m, line, length, AtReturn);
  }

  /** A word that selects `return` selects neither `param` nor `prop`. */
  lemma ReturnSlotOf(kw: string)
    requires MatchDirective(kw) == Some(AtReturn)
    ensures !Matches(kw, AtParam) && !Matches(kw, AtProp) && SlotOf(kw) == ReturnSlot
  {
    MatchDirectiveSpec(kw, AtReturn);
    assert Rank(AtParam) < Rank(AtReturn) && Rank(AtProp) < Rank(AtReturn);
  }

  /** The slot of a `param` or `prop` word, and that such a word takes a name. */
  lemma NamedSlot(kw: string, d: Directive)
    requires d == AtParam || d == AtProp
    requires MatchDirective(kw) == Some(d) && |kw| > 0
    ensures Matches(kw, AtParam) || Matches(kw, AtProp)
    ensures SlotOf(kw) == if d == AtParam then ParamSlot else PropSlot
  {
    MatchDirectiveSpec(kw, d);
    NotReturn(kw, d);
    hide Matches, Keyword, MatchDirective;
    if d == AtProp {
      assert Rank(AtParam) < Rank(AtProp);
    }
  }

  /** A word that matches `param` or `prop` starts with `p`, so it does not match `return`. */
  lemma NotReturn(kw: string, d: Directive)
    requires d == AtParam || d == AtProp
    requires Matches(kw, d) && |kw| > 0
    ensures !Matches(kw, AtReturn)
  {
    FirstLetter(kw, d);
    if Matches(kw, AtReturn) {
      FirstLetter(kw, AtReturn);
    }
  }

  /** `@param name T desc` and `@prop name T desc`: one named entry is appended to the list the word selects. */
  lemma NamedLineWord(m: MarkerState, d: Directive, kw: string, n: string, p: string, desc: Option<string>,
                      rest: string, line: string, length: nat)
    requires d == AtParam || d == AtProp
    requires MatchDirective(kw) == Some(d) && WordText(kw) && WordText(n) && WordText(p) && DescText(desc)
    requires line == LineText(kw, Some(n), p, desc, rest) && length == LineLength(kw, Some(n), p, desc)
    ensures ParseMarkerSpec(m, line, length) ==
      Pushed(m, if d == AtParam then ParamSlot else PropSlot, n, DescRead(desc), ParseType(p))
  {
    var me := 1 + |kw|;
    var arg := me + 1;
    var nend := arg + |n|;
    var targ := nend + 1;
    var tend := targ + |p|;
    NamedLineFacts(kw, n, p, desc, rest, line, length, me, arg, nend, targ, tend);
    hide LineText, LineLength, SkipWord, SkipSeps, Desc, ParseType, DescRead;
    NamedSlot(kw, d);
    EntryNamed(m, line, length, kw, me, arg, nend, n, targ, tend, p);
    SpecDirected(m, line, length, d);
    DirectedEntry(m, line, length, d);
  }

  /** `@return T desc` with a printed typeset: the entry holds exactly that typeset. */
  lemma ReturnLineRoundTrip(m: MarkerState, kw: string, ts: seq<Type>, desc: Option<string>, rest: string,
                            line: string, length: nat)
    requires MatchDirective(kw) == Some(AtReturn) && WordText(kw) && DescText(desc)
    requires PrintableSet(ts) && ts != []
    requires line == LineText(kw, None, PrintSet(ts), desc, rest) && length == LineLength(kw, None, PrintSet(ts), desc)
    ensures ParseMarkerSpec(m, line, length) ==
      m.(returnPairs := Some(m.returnPairs.GetOr([]) + [MarkerPair(DescRead(desc), ts)]))
  {
    ParsePrint(ts);
    PrintSetNonEmpty(ts);
    ReturnLineWord(m, kw, PrintSet(ts), desc, rest, line, length);
  }

  /** `@param name T desc` with a printed typeset. */
  lemma ParamLineRoundTrip(m: MarkerState, kw: string, n: string, ts: seq<Type>, desc: Option<string>,
                           rest: string, line: string, length: nat)
    requires MatchDirective(kw) == Some(AtParam) && WordText(kw) && WordText(n) && DescText(desc)
    requires PrintableSet(ts) && ts != []
    requires line == LineText(kw, Some(n), PrintSet(ts), desc, rest)
    requires length == LineLength(kw, Some(n), PrintSet(ts), desc)
    ensures ParseMarkerSpec(m, line, length) ==
      m.(params := Some(m.params.GetOr([]) + [MarkerPairNamed(n, DescRead(desc), ts)]))
  {
    ParsePrint(ts);
    PrintSetNonEmpty(ts);
    NamedLineWord(m, AtParam, kw, n, PrintSet(ts), desc, rest, line, length);
  }

  /** `@prop name T desc` with a printed typeset. */
  lemma PropLineRoundTrip(m: MarkerState, kw: string, n: string, ts: seq<Type>, desc: Option<string>,
                          rest: string, line: string, length: nat)
    requires MatchDirective(kw) == Some(AtProp) && WordText(kw) && WordText(n) && DescText(desc)
    requires PrintableSet(ts) && ts != []
    requires line == LineText(kw, Some(n), PrintSet(ts), desc, rest)
    requires length == LineLength(kw, Some(n), PrintSet(ts), desc)
    ensures ParseMarkerSpec(m, line, length) ==
      m.(props := Some(m.props.GetOr([]) + [MarkerPairNamed(n, DescRead(desc), ts)]))
  {
    ParsePrint(ts);
    PrintSetNonEmpty(ts);
    NamedLineWord(m, AtProp, kw, n, PrintSet(ts), desc, rest, line, length);
  }

  /** A directive line, ending at `length`, that ends right after its word. */
  lemma BareLineFacts(kw: string, rest: string, line: string, length: nat, me: nat)
    requires WordText(kw) && me == 1 + |kw|
    requires line == "@" + (kw + (NameWord(None) + ("\n" + rest))) && length == me + 1
    ensures 1 <= length <= |line|
    ensures SkipWord(line, 1) == me && WordOf(line) == kw
    ensures SkipSeps(line, me) >= length
  {
    assert line[1..] == kw + ("\n" + rest);
    WordThenNewline(line, 1, me, kw, rest);
  }

  /** A directive line, ending at `length`, that ends right after one name word. */
  lemma NameOnlyLineFacts(kw: string, n: string, rest: string, line: string, length: nat,
                          me: nat, arg: nat, nend: nat)
    requires WordText(kw) && WordText(n) && me == 1 + |kw| && arg == me + 1 && nend == arg + |n|
    requires line == "@" + (kw + (NameWord(Some(n)) + ("\n" + rest))) && length == nend + 1
    ensures 1 <= length <= |line|
    ensures SkipWord(line, 1) == me && WordOf(line) == kw
    ensures SkipSeps(line, me) == arg
    ensures SkipWord(line, arg) == nend
    ensures SkipSeps(line, nend) >= length
  {
    assert NameWord(Some(n)) + ("\n" + rest) == " " + (n + ("\n" + rest));
    KeywordBlank(line, kw, n + ("\n" + rest), me, arg);
    WordThenNewline(line, arg, nend, n, rest);
  }

  /** The blank and name word of a line that ends after the name. */
  function NameWord(n: Option<string>): string
  {
    if n.Some? then " " + n.value else ""
  }

  /** `@type`, `@param`, `@prop` and `@return` with no word after them change nothing. */
  lemma NoArgument(m: MarkerState, kw: string, d: Directive, rest: string, line: string, length: nat)
    requires d in {AtType, AtParam, AtProp, AtReturn}
    requires MatchDirective(kw) == Some(d) && WordText(kw)
    requires line == "@" + (kw + (NameWord(None) + ("\n" + rest))) && length == 2 + |kw|
    ensures ParseMarkerSpec(m, line, length) == m
  {
    var me := 1 + |kw|;
    BareLineFacts(kw, rest, line, length, me);
    hide SkipWord, SkipSeps, NameWord;
    SpecDirected(m, line, length, d);
    if d != AtType {
      DirectedEntry(m, line, length, d);
    }
  }

  /** `@param name` and `@prop name` with no type word after the name change nothing. */
  lemma NoTypeWord(m: MarkerState, kw: string, d: Directive, n: string, rest: string, line: string, length: nat)
    requires d == AtParam || d == AtProp
    requires MatchDirective(kw) == Some(d) && WordText(kw) && WordText(n)
    requires line == "@" + (kw + (NameWord(Some(n)) + ("\n" + rest))) && length == 2 + |kw| + |NameWord(Some(n))|
    ensures ParseMarkerSpec(m, line, length) == m
  {
    var me := 1 + |kw|;
    var arg := me + 1;
    var nend := arg + |n|;
    NameOnlyLineFacts(kw, n, rest, line, length, me, arg, nend);
    hide SkipWord, SkipSeps, NameWord;
    NamedSlot(kw, d);
    SpecDirected(m, line, length, d);
    DirectedEntry(m, line, length, d);
  }

  // ---------------------------------------------------------------------------
  // Inheritance lines

  predicate AllWords(names: seq<string>)
  {
    forall k :: 0 <= k < |names| ==> WordText(names[k])
  }

  lemma JoinHead(names: seq<string>)
    requires names != [] && AllWords(names)
    ensures |JoinStr(names, ' ')| > 0 && JoinStr(names, ' ')[0] == names[0][0]
  {
    assert WordText(names[0]);
  }

  /** One step of the `inherit` loop: the word `w` from `i` to `e`, then the words from `next`. */
  /** The last word of the line is the last word read. */
  lemma WordsOfLast(line: string, i: nat, w: string, rest: string, length: nat)
    requires WordText(w) && i <= |line| && line[i..] == w + ("\n" + rest)
    requires length == i + |w| + 1
    ensures length <= |line|
    ensures Words(line, i, length) == [w]
  {
    var e := i + |w|;
    WordThenNewline(line, i, e, w, rest);
    var next := SkipSeps(line, e);
    WordsStep(line, i, length, w, e, next);
    assert Words(line, next, length) == [];
  }

  /** The first word, ending at `e`, of a blank-separated list of at least two words; the others start at `next`. */
  lemma JoinStep(line: string, i: nat, e: nat, next: nat, names: seq<string>, rest: string)
    requires |names| >= 2 && AllWords(names) && e == i + |names[0]| && next == e + 1
    requires i <= |line| && line[i..] == JoinStr(names, ' ') + ("\n" + rest)
    ensures AllWords(names[1..])
    ensures |JoinStr(names, ' ')| == |names[0]| + 1 + |JoinStr(names[1..], ' ')|
    ensures SkipWord(line, i) == e && line[i..e] == names[0]
    ensures SkipSeps(line, e) == next && line[next..] == JoinStr(names[1..], ' ') + ("\n" + rest)
  {
    var w := names[0];
    assert WordText(w);
    var j := JoinStr(names[1..], ' ');
    assert AllWords(names[1..]) by {
      forall k | 0 <= k < |names[1..]| ensures WordText(names[1..][k]) {
        assert names[1..][k] == names[k + 1];
      }
    }
    JoinHead(names[1..]);
    assert JoinStr(names, ' ') == w + [' '] + j;
    assert line[i..] == w + (" " + (j + ("\n" + rest)));
    WordBlank(line, i, e, next, w, j + ("\n" + rest));
  }

  /** A first word followed by the words already read back gives the whole list. */
  lemma WordsCons(line: string, i: nat, length: nat, names: seq<string>, e: nat, next: nat)
    requires names != [] && i < length <= |line| && e <= |line|
    requires SkipWord(line, i) == e && line[i..e] == names[0]
    requires SkipSeps(line, e) == next && next <= |line|
    requires Words(line, next, length) == names[1..]
    ensures Words(line, i, length) == names
  {
    hide Words, SkipWord, SkipSeps;
    WordsStep(line, i, length, names[0], e, next);
    assert [names[0]] + names[1..] == names;
  }

  /** The words of a blank-separated list that a newline ends are read back in order. */
  lemma {:induction false} WordsOfJoin(line: string, i: nat, names: seq<string>, rest: string, length: nat)
    requires names != [] && AllWords(names)
    requires i <= |line| && line[i..] == JoinStr(names, ' ') + ("\n" + rest)
    requires length == i + |JoinStr(names, ' ')| + 1
    ensures length <= |line|
    ensures Words(line, i, length) == names
    decreases |names|
  {
    if |names| == 1 {
      WordsOfOne(line, i, names, rest, length);
    } else {
      var e := i + |names[0]|;
      var next := e + 1;
      hide Words, SkipWord, SkipSeps, JoinStr, AllWords;
      JoinStep(line, i, e, next, names, rest);
      WordsOfJoin(line, next, names[1..], rest, length);
      WordsCons(line, i, length, names, e, next);
    }
  }

  /** A list of one word is that word, closed by its newline. */
  lemma WordsOfOne(line: string, i: nat, names: seq<string>, rest: string, length: nat)
    requires |names| == 1 && AllWords(names)
    requires i <= |line| && line[i..] == JoinStr(names, ' ') + ("\n" + rest)
    requires length == i + |JoinStr(names, ' ')| + 1
    ensures length <= |line|
    ensures Words(line, i, length) == names
  {
    var w := names[0];
    assert WordText(w);
    assert JoinStr(names, ' ') == w;
    hide Words, SkipWord, SkipSeps, JoinStr;
    WordsOfLast(line, i, w, rest, length);
    assert names == [w];
  }

  /** The text of an `inherit` line naming `names`. */
  function InheritText(kw: string, names: seq<string>, rest: string): string
  {
    "@" + (kw + (" " + (JoinStr(names, ' ') + ("\n" + rest))))
  }

  /** `@inherit A B C`: the names are appended, in order, to the inheritance list, which then exists. */
  lemma InheritLineRoundTrip(m: MarkerState, kw: string, names: seq<string>, rest: string,
                             line: string, length: nat)
    requires MatchDirective(kw) == Some(AtInherit) && WordText(kw) && AllWords(names)
    requires line == InheritText(kw, names, rest) && length == 3 + |kw| + |JoinStr(names, ' ')|
    ensures ParseMarkerSpec(m, line, length) == m.(inheritance := Some(m.inheritance.GetOr([]) + names))
  {
    var me := 1 + |kw|;
    InheritLineFacts(kw, names, rest, line, length, me);
    hide Words, SkipWord, SkipSeps, WordOf, InheritText, JoinStr, AllWords;
    SpecDirected(m, line, length, AtInherit);
    assert !IsFlag(AtInherit);
  }

  /** Where the scans stop on an `inherit` line whose word ends at `me`: the words read are the names written. */
  lemma InheritLineFacts(kw: string, names: seq<string>, rest: string, line: string, length: nat, me: nat)
    requires WordText(kw) && AllWords(names) && me == 1 + |kw|
    requires line == InheritText(kw, names, rest) && length == 3 + |kw| + |JoinStr(names, ' ')|
    ensures 1 <= length <= |line|
    ensures SkipWord(line, 1) == me && WordOf(line) == kw
    ensures Words(line, SkipSeps(line, me), length) == names
  {
    var j := JoinStr(names, ' ');
    assert line[1..] == kw + (" " + (j + ("\n" + rest)));
    if names == [] {
      assert j == [];
      Split(line, 1, me, kw, " " + (j + ("\n" + rest)));
      assert line[me] == ' ' && line[me + 1] == '\n';
      WordAt(line, 1, me, kw);
      assert SkipSeps(line, me) >= length;
    } else {
      JoinHead(names);
      KeywordBlank(line, kw, j + ("\n" + rest), me, me + 1);
      WordsOfJoin(line, me + 1, names, rest, length);
    }
  }
}
