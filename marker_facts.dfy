/**
 * Properties of `parse_marker` (src/marker.c): how a directive word is chosen and what one
 * directive line may do to the accumulator.
 */
module MarkerFacts {
  import opened Wrappers
  import opened Strings
  import opened TypeGrammar
  import opened Marker

  // ---------------------------------------------------------------------------
  // Properties of one directive line

  lemma RankOfEntry(i: nat)
    requires i < |Directives|
    ensures Rank(Directives[i]) == i
  {
  }

  /** The scan stops at the first table entry `p` accepts, at index `k`, or finds none. */
  lemma {:induction false} FirstWhereSpec<T>(table: seq<T>, p: T -> bool, i: nat) returns (k: nat)
    requires i <= |table|
    ensures FirstWhere(table, p, i).None? <==> forall j :: i <= j < |table| ==> !p(table[j])
    ensures FirstWhere(table, p, i).Some? ==>
      && i <= k < |table| && FirstWhere(table, p, i).value == table[k] && p(table[k])
      && forall j :: i <= j < k ==> !p(table[j])
    decreases |table| - i
  {
    k := i;
    if i < |table| && !p(table[i]) {
      k := FirstWhereSpec(table, p, i + 1);
    }
  }

  /** A word that differs from a keyword at position `k`, or runs past its end there, does not start it. */
  lemma NotMatchAt(word: string, d: Directive, k: nat)
    requires k < |word| && (k >= |Keyword(d)| || word[k] != Keyword(d)[k])
    ensures !Matches(word, d)
  {
  }

  /** The directive chosen is the first keyword, in table order, that the word is a prefix of. */
  lemma MatchDirectiveSpec(word: string, d: Directive)
    ensures MatchDirective(word) == Some(d) <==>
      Matches(word, d) && forall e :: Rank(e) < Rank(d) ==> !Matches(word, e)
  {
    var p := e => Matches(word, e);
    forall i | 0 <= i < |Directives| ensures Rank(Directives[i]) == i {
      RankOfEntry(i);
    }
    FirstByRank(Directives, p, Rank, d);
    assert forall e :: p(e) == Matches(word, e);
  }

  /**
   * In a table where every value sits at its rank, the scan finds `x` exactly when `p` accepts `x`
   * and no value of lower rank.
   */
  lemma FirstByRank<T>(table: seq<T>, p: T -> bool, rank: T -> nat, x: T)
    requires forall y :: rank(y) < |table| && table[rank(y)] == y
    requires forall i :: 0 <= i < |table| ==> rank(table[i]) == i
    ensures FirstWhere(table, p, 0) == Some(x) <==> p(x) && forall e :: rank(e) < rank(x) ==> !p(e)
  {
    var k := FirstWhereSpec(table, p, 0);
    if FirstWhere(table, p, 0) == Some(x) {
      assert rank(table[k]) == k;
      forall e | rank(e) < rank(x) ensures !p(e) {
        assert table[rank(e)] == e;
      }
    }
    if p(x) && forall e :: rank(e) < rank(x) ==> !p(e) {
      assert table[rank(x)] == x;
      var c := FirstWhere(table, p, 0).value;
      assert table[rank(c)] == c;
      assert !(rank(c) < rank(x));
      assert rank(table[k]) == k;
      assert !(rank(x) < k);
    }
  }

  /** A word that starts no keyword selects nothing. */
  lemma MatchDirectiveNone(word: string)
    ensures MatchDirective(word).None? <==> forall e :: !Matches(word, e)
  {
    var _ := FirstWhereSpec(Directives, d => Matches(word, d), 0);
    if MatchDirective(word).None? {
      forall e ensures !Matches(word, e) {
        assert Directives[Rank(e)] == e;
      }
    }
  }

  // Prefix matching on the table as the source orders it: a short word takes the first keyword it starts.

  lemma ShortWordReturn()
    ensures MatchDirective("ret") == Some(AtReturn)
  {
    forall e | Rank(e) < Rank(AtReturn) ensures !Matches("ret", e) {
      match e
      case AtConst => NotMatchAt("ret", AtConst, 0);
      case AtReadonly => NotMatchAt("ret", AtReadonly, 2);
      case AtVar => NotMatchAt("ret", AtVar, 0);
      case AtModule => NotMatchAt("ret", AtModule, 0);
      case AtClass => NotMatchAt("ret", AtClass, 0);
      case AtPublic => NotMatchAt("ret", AtPublic, 0);
      case AtPrivate => NotMatchAt("ret", AtPrivate, 0);
      case AtConstructor => NotMatchAt("ret", AtConstructor, 0);
      case AtStatic => NotMatchAt("ret", AtStatic, 0);
      case AtType => NotMatchAt("ret", AtType, 0);
      case AtInherit => NotMatchAt("ret", AtInherit, 0);
      case AtParam => NotMatchAt("ret", AtParam, 0);
      case AtProp => NotMatchAt("ret", AtProp, 0);
      case AtReturn =>
    }
    MatchDirectiveSpec("ret", AtReturn);
  }

  lemma ShortWordReadonly()
    ensures MatchDirective("re") == Some(AtReadonly)
  {
    NotMatchAt("re", AtConst, 0);
    assert "re" == Keyword(AtReadonly)[..2];
    MatchDirectiveSpec("re", AtReadonly);
  }

  /** The empty word starts every keyword and takes the first. */
  lemma EmptyWordConst()
    ensures MatchDirective("") == Some(AtConst)
  {
    MatchDirectiveSpec("", AtConst);
  }

  lemma ShortWordProp()
    ensures MatchDirective("pro") == Some(AtProp)
  {
    forall e | Rank(e) < Rank(AtProp) ensures !Matches("pro", e) {
      match e
      case AtConst => NotMatchAt("pro", AtConst, 0);
      case AtReadonly => NotMatchAt("pro", AtReadonly, 0);
      case AtVar => NotMatchAt("pro", AtVar, 0);
      case AtModule => NotMatchAt("pro", AtModule, 0);
      case AtClass => NotMatchAt("pro", AtClass, 0);
      case AtPublic => NotMatchAt("pro", AtPublic, 1);
      case AtPrivate => NotMatchAt("pro", AtPrivate, 2);
      case AtConstructor => NotMatchAt("pro", AtConstructor, 0);
      case AtStatic => NotMatchAt("pro", AtStatic, 0);
      case AtType => NotMatchAt("pro", AtType, 0);
      case AtInherit => NotMatchAt("pro", AtInherit, 0);
      case AtParam => NotMatchAt("pro", AtParam, 1);
      case AtProp =>
      case AtReturn =>
    }
    assert "pro" == Keyword(AtProp)[..3];
    MatchDirectiveSpec("pro", AtProp);
  }

  lemma ShortWordPublic()
    ensures MatchDirective("p") == Some(AtPublic)
  {
    forall e | Rank(e) < Rank(AtPublic) ensures !Matches("p", e) {
      match e
      case AtConst => NotMatchAt("p", AtConst, 0);
      case AtReadonly => NotMatchAt("p", AtReadonly, 0);
      case AtVar => NotMatchAt("p", AtVar, 0);
      case AtModule => NotMatchAt("p", AtModule, 0);
      case AtClass => NotMatchAt("p", AtClass, 0);
      case AtPublic =>
      case AtPrivate =>
      case AtConstructor =>
      case AtStatic =>
      case AtType =>
      case AtInherit =>
      case AtParam =>
      case AtProp =>
      case AtReturn =>
    }
    assert "p" == Keyword(AtPublic)[..1];
    MatchDirectiveSpec("p", AtPublic);
  }

  /** A word longer than every keyword it starts selects nothing. */
  lemma LongWordExample()
    ensures MatchDirective("constant") == None
  {
    forall e ensures !Matches("constant", e) {
      match e
      case AtConst => NotMatchAt("constant", AtConst, 5);
      case AtReadonly => NotMatchAt("constant", AtReadonly, 0);
      case AtVar => NotMatchAt("constant", AtVar, 0);
      case AtModule => NotMatchAt("constant", AtModule, 0);
      case AtClass => NotMatchAt("constant", AtClass, 1);
      case AtPublic => NotMatchAt("constant", AtPublic, 0);
      case AtPrivate => NotMatchAt("constant", AtPrivate, 0);
      case AtConstructor => NotMatchAt("constant", AtConstructor, 5);
      case AtStatic => NotMatchAt("constant", AtStatic, 0);
      case AtType => NotMatchAt("constant", AtType, 0);
      case AtInherit => NotMatchAt("constant", AtInherit, 0);
      case AtParam => NotMatchAt("constant", AtParam, 0);
      case AtProp => NotMatchAt("constant", AtProp, 0);
      case AtReturn => NotMatchAt("constant", AtReturn, 0);
    }
    MatchDirectiveNone("constant");
  }

  /** Matching is case-sensitive: every keyword is lower case. */
  lemma CaseExample()
    ensures MatchDirective("Type") == None
  {
    forall e ensures !Matches("Type", e) {
      NotMatchAt("Type", e, 0);
    }
    MatchDirectiveNone("Type");
  }

  /** The flag a flag directive sets: `const` and `readonly` share one. */
  function Flag(s: MarkerState, d: Directive): bool
    requires IsFlag(d)
  {
    match d
    case AtConst => s.flags.fReadonly
    case AtReadonly => s.flags.fReadonly
    case AtVar => s.flags.fVar
    case AtModule => s.flags.fModule
    case AtClass => s.flags.fClass
    case AtPublic => s.flags.fPublic
    case AtPrivate => s.flags.fPrivate
    case AtConstructor => s.flags.fConstructor
    case AtStatic => s.flags.fStatic
  }

  /** Whether two flag directives set the same flag. */
  predicate SameFlag(d: Directive, e: Directive)
  {
    d == e || ((d.AtConst? || d.AtReadonly?) && (e.AtConst? || e.AtReadonly?))
  }

  /** `a` and `b` agree on every flag. */
  predicate SameFlags(a: MarkerState, b: MarkerState)
  {
    a.flags == b.flags
  }

  /** A snapshot with its flags cleared: what is left are the lists. */
  function Lists(s: MarkerState): MarkerState
  {
    s.(flags := NoFlags())
  }

  /** `b` extends the list `a`: an existing list keeps its elements and only grows at the end. */
  predicate Extends<T(==)>(a: Option<seq<T>>, b: Option<seq<T>>)
  {
    a.Some? ==> b.Some? && a.value <= b.value
  }

  /** `r` is `m` with lists extended at the end and flags at most raised. */
  predicate Grows(m: MarkerState, r: MarkerState)
  {
    && Extends(m.types, r.types) && Extends(m.returnPairs, r.returnPairs)
    && Extends(m.params, r.params) && Extends(m.props, r.props)
    && Extends(m.inheritance, r.inheritance)
    && forall e :: IsFlag(e) && Flag(m, e) ==> Flag(r, e)
  }

  /** Appending to a list, created empty when missing, extends it. */
  lemma AppendExtends<T>(a: Option<seq<T>>, x: seq<T>)
    ensures Extends(a, Some(a.GetOr([]) + x))
  {
    PrefixOfAppend(a.GetOr([]), x);
  }

  lemma TypesGrow(m: MarkerState, x: seq<Type>)
    ensures Grows(m, m.(types := Some(m.types.GetOr([]) + x)))
  {
    AppendExtends(m.types, x);
  }

  lemma SetFlagEffect(m: MarkerState, d: Directive)
    requires IsFlag(d)
    ensures forall e :: IsFlag(e) ==> Flag(SetFlag(m, d), e) == (Flag(m, e) || SameFlag(d, e))
    ensures Lists(SetFlag(m, d)) == Lists(m)
  {
    var r := SetFlag(m, d);
    forall e | IsFlag(e) ensures Flag(r, e) == (Flag(m, e) || SameFlag(d, e)) {
      FlagOfSet(m, d, e);
    }
  }

  lemma FlagOfSet(m: MarkerState, d: Directive, e: Directive)
    requires IsFlag(d) && IsFlag(e)
    ensures Flag(SetFlag(m, d), e) == (Flag(m, e) || SameFlag(d, e))
  {
    var r := SetFlag(m, d);
    match d
    case AtConst =>
      assert r.flags == m.flags.(fReadonly := true);
      assert SameFlag(d, e) == (e.AtConst? || e.AtReadonly?);
      hide SetFlag, SameFlag;
    case AtReadonly =>
      assert r.flags == m.flags.(fReadonly := true);
      assert SameFlag(d, e) == (e.AtConst? || e.AtReadonly?);
      hide SetFlag, SameFlag;
    case AtVar =>
      assert r.flags == m.flags.(fVar := true);
      assert SameFlag(d, e) == e.AtVar?;
      hide SetFlag, SameFlag;
    case AtModule =>
      assert r.flags == m.flags.(fModule := true);
      assert SameFlag(d, e) == e.AtModule?;
      hide SetFlag, SameFlag;
    case AtClass =>
      assert r.flags == m.flags.(fClass := true);
      assert SameFlag(d, e) == e.AtClass?;
      hide SetFlag, SameFlag;
    case AtPublic =>
      assert r.flags == m.flags.(fPublic := true);
      assert SameFlag(d, e) == e.AtPublic?;
      hide SetFlag, SameFlag;
    case AtPrivate =>
      assert r.flags == m.flags.(fPrivate := true);
      assert SameFlag(d, e) == e.AtPrivate?;
      hide SetFlag, SameFlag;
    case AtConstructor =>
      assert r.flags == m.flags.(fConstructor := true);
      assert SameFlag(d, e) == e.AtConstructor?;
      hide SetFlag, SameFlag;
    case AtStatic =>
      assert r.flags == m.flags.(fStatic := true);
      assert SameFlag(d, e) == e.AtStatic?;
      hide SetFlag, SameFlag;
  }

  lemma SetFlagGrows(m: MarkerState, d: Directive)
    requires IsFlag(d)
    ensures Grows(m, SetFlag(m, d))
  {
    SetFlagEffect(m, d);
    assert Lists(SetFlag(m, d)) == Lists(m);
  }

  lemma PrefixOfAppend<T>(a: seq<T>, b: seq<T>)
    ensures a <= a + b
  {
    assert (a + b)[..|a|] == a;
  }

  lemma PushedGrows(m: MarkerState, slot: Slot, name: string, desc: Option<string>, typeset: seq<Type>)
    ensures SameFlags(Pushed(m, slot, name, desc, typeset), m)
    ensures Grows(m, Pushed(m, slot, name, desc, typeset))
  {
    match slot
    case ReturnSlot => ReturnsGrow(m, MarkerPair(desc, typeset));
    case ParamSlot => ParamsGrow(m, MarkerPairNamed(name, desc, typeset));
    case PropSlot => PropsGrow(m, MarkerPairNamed(name, desc, typeset));
  }

  lemma ReturnsGrow(m: MarkerState, p: MarkerPair)
    ensures var r := m.(returnPairs := Some(m.returnPairs.GetOr([]) + [p])); SameFlags(r, m) && Grows(m, r)
  {
    var r := m.(returnPairs := Some(m.returnPairs.GetOr([]) + [p]));
    AppendExtends(m.returnPairs, [p]);
    KeptFlags(m, r);
  }

  lemma ParamsGrow(m: MarkerState, p: MarkerPairNamed)
    ensures var r := m.(params := Some(m.params.GetOr([]) + [p])); SameFlags(r, m) && Grows(m, r)
  {
    var r := m.(params := Some(m.params.GetOr([]) + [p]));
    AppendExtends(m.params, [p]);
    KeptFlags(m, r);
  }

  lemma PropsGrow(m: MarkerState, p: MarkerPairNamed)
    ensures var r := m.(props := Some(m.props.GetOr([]) + [p])); SameFlags(r, m) && Grows(m, r)
  {
    var r := m.(props := Some(m.props.GetOr([]) + [p]));
    AppendExtends(m.props, [p]);
    KeptFlags(m, r);
  }

  /** Agreeing on the flags record means agreeing on every flag. */
  lemma KeptFlags(m: MarkerState, r: MarkerState)
    requires SameFlags(r, m)
    ensures forall e :: IsFlag(e) ==> Flag(r, e) == Flag(m, e)
  {
  }

  lemma EntryGrows(m: MarkerState, line: string, length: nat, word: string, markerEnd: nat)
    requires markerEnd <= |line| && length <= |line|
    ensures SameFlags(Entry(m, line, length, word, markerEnd), m)
    ensures Grows(m, Entry(m, line, length, word, markerEnd))
  {
    var arg := SkipSeps(line, markerEnd);
    if arg < length {
      var named := Matches(word, AtParam) || Matches(word, AtProp);
      var nameEnd := SkipWord(line, arg);
      var targ := if named then SkipSeps(line, nameEnd) else arg;
      if targ < length {
        var tend := SkipWord(line, targ);
        var name := if named then line[arg..nameEnd] else "";
        PushedGrows(m, SlotOf(word), name, Desc(line, tend, length), ParseType(line[targ..tend]));
      }
    }
  }

  /** A flag directive sets exactly its one flag and touches no list. */
  lemma FlagDirective(m: MarkerState, line: string, length: nat)
    requires 1 <= length <= |line|
    requires MatchDirective(WordOf(line)).Some? && IsFlag(MatchDirective(WordOf(line)).value)
    ensures var r := ParseMarkerSpec(m, line, length);
      && (forall e :: IsFlag(e) ==> Flag(r, e) == (Flag(m, e) || SameFlag(MatchDirective(WordOf(line)).value, e)))
      && Lists(r) == Lists(m)
  {
    var d := MatchDirective(WordOf(line)).value;
    assert ParseMarkerSpec(m, line, length) == SetFlag(m, d);
    SetFlagEffect(m, d);
  }

  /** A directive other than a flag leaves the flags alone. */
  lemma DirectedKeepsFlags(m: MarkerState, d: Directive, line: string, length: nat)
    requires 1 <= length <= |line|
    requires !IsFlag(d)
    ensures SameFlags(Directed(m, d, line, length), m)
  {
    var markerEnd := SkipWord(line, 1);
    if d != AtType && d != AtInherit {
      EntryGrows(m, line, length, WordOf(line), markerEnd);
    }
  }



  /** Every other line leaves the flags alone, and an unknown word leaves everything alone. */
  lemma OtherLinesKeepFlags(m: MarkerState, line: string, length: nat)
    requires 1 <= length <= |line|
    requires MatchDirective(WordOf(line)).None? || !IsFlag(MatchDirective(WordOf(line)).value)
    ensures SameFlags(ParseMarkerSpec(m, line, length), m)
    ensures MatchDirective(WordOf(line)).None? ==> ParseMarkerSpec(m, line, length) == m
  {
    if MatchDirective(WordOf(line)).Some? {
      DirectedKeepsFlags(m, MatchDirective(WordOf(line)).value, line, length);
    }
  }

  lemma TypeLineGrows(m: MarkerState, line: string, length: nat, markerEnd: nat)
    requires markerEnd <= |line| && length <= |line|
    ensures Grows(m, TypeLine(m, line, length, markerEnd))
  {
    var arg := SkipSeps(line, markerEnd);
    if arg < length {
      TypesGrow(m, ParseType(line[arg..SkipWord(line, arg)]));
    }
  }

  lemma InheritGrows(m: MarkerState, ws: seq<string>)
    ensures Grows(m, m.(inheritance := Some(m.inheritance.GetOr([]) + ws)))
  {
    AppendExtends(m.inheritance, ws);
  }

  /** Whatever the directive, a line only appends to lists and raises flags. */
  lemma DirectedGrows(m: MarkerState, d: Directive, line: string, length: nat)
    requires 1 <= length <= |line|
    ensures Grows(m, Directed(m, d, line, length))
  {
    var markerEnd := SkipWord(line, 1);
    var r := Directed(m, d, line, length);
    if IsFlag(d) {
      assert r == SetFlag(m, d);
      SetFlagGrows(m, d);
    } else if d == AtType {
      assert r == TypeLine(m, line, length, markerEnd);
      TypeLineGrows(m, line, length, markerEnd);
    } else if d == AtInherit {
      var ws := Words(line, SkipSeps(line, markerEnd), length);
      assert r == m.(inheritance := Some(m.inheritance.GetOr([]) + ws));
      InheritGrows(m, ws);
    } else {
      assert r == Entry(m, line, length, WordOf(line), markerEnd);
      EntryGrows(m, line, length, WordOf(line), markerEnd);
    }
  }


  /** Directive lines only ever append to the accumulator's lists, and flags are never cleared. */
  lemma ListsOnlyGrow(m: MarkerState, line: string, length: nat)
    requires 1 <= length <= |line|
    ensures Grows(m, ParseMarkerSpec(m, line, length))
  {
    if MatchDirective(WordOf(line)).Some? {
      DirectedGrows(m, MatchDirective(WordOf(line)).value, line, length);
    }
  }

  // ---------------------------------------------------------------------------
  // The description length as the C code computes it

  /** One more than the largest `size_t`. */
  const SizeModulus: int := 0x1_0000_0000_0000_0000

  /** What the C code hands to `astrndup` for a description: `count` bytes from `start`. */
  datatype DescCopy = NoCopy | Copy(start: nat, count: nat)

  /**
   * The description step as written: the length is the unsigned difference
   * between the line end and the position after the blanks, so a skip that
   * passes the line end wraps around to a huge count.
   */
  function DescAsWritten(line: string, tend: nat, length: nat): (c: DescCopy)
    requires tend <= |line| && length <= |line|
    ensures c.Copy? ==> c.start == SkipSeps(line, tend) && 0 < c.count < SizeModulus
  {
    var darg := SkipSeps(line, tend);
    var count := (length - darg) % SizeModulus;
    if count > 0 then Copy(darg, count) else NoCopy
  }

  /** While the skip stays within the line, the code as written copies exactly the corrected description. */
  lemma DescAgrees(line: string, tend: nat, length: nat)
    requires tend <= |line| && length <= |line| && |line| < SizeModulus
    requires SkipSeps(line, tend) <= length
    ensures DescAsWritten(line, tend, length).NoCopy? <==> Desc(line, tend, length).None?
    ensures Desc(line, tend, length).Some? ==>
      var c := DescAsWritten(line, tend, length);
      c.start + c.count == length && line[c.start..c.start + c.count] == Desc(line, tend, length).value
  {
  }

  /** When the skip passes the line end, the copy as written reaches past the end of the whole text. */
  lemma DescOverrun(line: string, tend: nat, length: nat)
    requires tend <= |line| && length <= |line| && |line| < SizeModulus
    requires SkipSeps(line, tend) > length
    ensures DescAsWritten(line, tend, length).Copy?
    ensures DescAsWritten(line, tend, length).start + DescAsWritten(line, tend, length).count > |line|
    ensures Desc(line, tend, length) == None
  {
    var darg := SkipSeps(line, tend);
    assert (length - darg) % SizeModulus == SizeModulus + length - darg;
  }

  /**
   * A `@return` line with no description, followed by an indented line: the
   * blank skip runs over the newline and the indentation.
   */
  lemma DescOverrunExample()
    ensures var line := "@return num\n  x";
      DescAsWritten(line, 11, 12) == Copy(14, SizeModulus - 2) && 14 + SizeModulus - 2 > |line|
      && Desc(line, 11, 12) == None
  {
    var line := "@return num\n  x";
    SkipSepsRun(line, 11, 14);
  }

  /** The corrected description is the non-empty rest of the line after the blanks, and `None` exactly when nothing is left. */
  lemma DescWithinLine(line: string, tend: nat, length: nat)
    requires tend <= |line| && length <= |line|
    ensures Desc(line, tend, length).None? <==> SkipSeps(line, tend) >= length
    ensures Desc(line, tend, length).Some? ==>
      var d := Desc(line, tend, length).value;
      0 < |d| <= length - tend && !IsSep(d[0]) && d == line[length - |d|..length]
  {
  }
}
