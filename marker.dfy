/**
 * The `#@word ...` directive parser.  A directive line updates an accumulator
 * of flags and lists; `ParseMarkerSpec` says what one line does to a snapshot
 * of the accumulator, and the `Markers` class performs the update in place.
 *
 * A directive is read from `line`, the file text that starts at the `@`, of
 * which the first `length` characters are the directive's own line (its
 * newline included).  Scanning may run past `length` into the following
 * lines, as it does in the source, and each argument is checked against the
 * line end before it is used.
 */
module Marker {
  import opened Wrappers
  import opened Strings
  import opened TypeGrammar

  /** `struct marker_pair`: one `return` entry. */
  datatype MarkerPair = MarkerPair(desc: Option<string>, typeset: seq<Type>)

  /** `struct marker_pair_named`: one `param` or `prop` entry. */
  datatype MarkerPairNamed = MarkerPairNamed(name: string, desc: Option<string>, typeset: seq<Type>)

  /** A snapshot of `struct markers`; a list the source leaves NULL until first use is `None`. */
  /** The eight one-bit flags of `struct markers`. */
  datatype Flags = Flags(
    fReadonly: bool, fVar: bool, fModule: bool, fClass: bool,
    fPublic: bool, fPrivate: bool, fConstructor: bool, fStatic: bool)

  datatype MarkerState = MarkerState(
    flags: Flags,
    types: Option<seq<Type>>,
    returnPairs: Option<seq<MarkerPair>>,
    params: Option<seq<MarkerPairNamed>>,
    props: Option<seq<MarkerPairNamed>>,
    inheritance: Option<seq<string>>)

  function NoFlags(): Flags
  {
    Flags(false, false, false, false, false, false, false, false)
  }

  /** A fresh accumulator: every flag false, every list absent. */
  function NoMarkers(): MarkerState
  {
    MarkerState(NoFlags(), None, None, None, None, None)
  }

  // ---------------------------------------------------------------------------
  // Directive words

  datatype Directive =
    | AtConst | AtReadonly | AtVar | AtModule | AtClass | AtPublic | AtPrivate
    | AtConstructor | AtStatic | AtType | AtInherit | AtParam | AtProp | AtReturn

  /** The keywords in the order the source tries them. */
  const Directives: seq<Directive> :=
    [AtConst, AtReadonly, AtVar, AtModule, AtClass, AtPublic, AtPrivate,
     AtConstructor, AtStatic, AtType, AtInherit, AtParam, AtProp, AtReturn]

  function Keyword(d: Directive): (w: string)
    ensures |w| >= 3 && 'a' <= w[0] <= 'z'
  {
    match d
    case AtConst => "const"
    case AtReadonly => "readonly"
    case AtVar => "var"
    case AtModule => "module"
    case AtClass => "class"
    case AtPublic => "public"
    case AtPrivate => "private"
    case AtConstructor => "constructor"
    case AtStatic => "static"
    case AtType => "type"
    case AtInherit => "inherit"
    case AtParam => "param"
    case AtProp => "prop"
    case AtReturn => "return"
  }

  /** The position of a directive in the table. */
  function Rank(d: Directive): (k: nat)
    ensures k < |Directives| && Directives[k] == d
  {
    match d
    case AtConst => 0
    case AtReadonly => 1
    case AtVar => 2
    case AtModule => 3
    case AtClass => 4
    case AtPublic => 5
    case AtPrivate => 6
    case AtConstructor => 7
    case AtStatic => 8
    case AtType => 9
    case AtInherit => 10
    case AtParam => 11
    case AtProp => 12
    case AtReturn => 13
  }

  /**
   * `strncmp(word, keyword, |word|) == 0` on NUL-free text: the word is a
   * prefix of the keyword.
   */
  predicate Matches(word: string, d: Directive)
  {
    word <= Keyword(d)
  }

  /** The first entry from position `i` of `table` that `p` accepts. */
  function FirstWhere<T>(table: seq<T>, p: T -> bool, i: nat): Option<T>
    requires i <= |table|
    decreases |table| - i
  {
    if i == |table| then None
    else if p(table[i]) then Some(table[i])
    else FirstWhere(table, p, i + 1)
  }

  /** The `if`/`else if` chain of `MARKER_MATCH` tests: the first keyword in table order the word starts. */
  function MatchDirective(word: string): Option<Directive>
  {
    FirstWhere(Directives, d => Matches(word, d), 0)
  }

  // ---------------------------------------------------------------------------
  // One directive line

  /** The whitespace-separated words from `arg` on that start before the line end (the `inherit` loop). */
  function Words(line: string, arg: nat, length: nat): seq<string>
    requires arg <= |line| && length <= |line|
    decreases |line| - arg
  {
    if arg >= length then []
    else
      var e := SkipWord(line, arg);
      var next := SkipSeps(line, e);
      assert next > arg by {
        if e == arg { assert IsSep(line[e]); }
      }
      [line[arg..e]] + Words(line, next, length)
  }

  lemma WordsEnd(line: string, i: nat, length: nat)
    requires i <= |line| && length <= |line| && i >= length
    ensures Words(line, i, length) == []
  {
  }

  /** One unfolding of `Words`: the word at `i`, then the words after the separators that follow it. */
  lemma WordsStep(line: string, i: nat, length: nat, w: string, e: nat, next: nat)
    requires i < length <= |line| && e <= |line|
    requires SkipWord(line, i) == e && line[i..e] == w && SkipSeps(line, e) == next
    ensures i < next
    ensures Words(line, i, length) == [w] + Words(line, next, length)
  {
  }

  /**
   * The description after the type word that ends at `tend`: the rest of the
   * line once blanks are skipped, `None` when nothing is left.  The skip may
   * pass the line end; that case also gives `None`.
   */
  function Desc(line: string, tend: nat, length: nat): (d: Option<string>)
    requires tend <= |line| && length <= |line|
  {
    var darg := SkipSeps(line, tend);
    if darg < length then Some(line[darg..length]) else None
  }

  /** The list an entry goes to. */
  datatype Slot = ReturnSlot | ParamSlot | PropSlot

  /** The list the directive word selects: `return`, else `param`, else `prop`. */
  function SlotOf(word: string): Slot
  {
    if Matches(word, AtReturn) then ReturnSlot
    else if Matches(word, AtParam) then ParamSlot
    else PropSlot
  }

  /** Appends one entry to the list `slot`; a `return` entry carries no name. */
  function Pushed(m: MarkerState, slot: Slot, name: string, desc: Option<string>, typeset: seq<Type>): MarkerState
  {
    match slot
    case ReturnSlot => m.(returnPairs := Some(m.returnPairs.GetOr([]) + [MarkerPair(desc, typeset)]))
    case ParamSlot => m.(params := Some(m.params.GetOr([]) + [MarkerPairNamed(name, desc, typeset)]))
    case PropSlot => m.(props := Some(m.props.GetOr([]) + [MarkerPairNamed(name, desc, typeset)]))
  }

  /** The `param`, `prop` and `return` branch, for a word that reached it. */
  function Entry(m: MarkerState, line: string, length: nat, word: string, markerEnd: nat): MarkerState
    requires markerEnd <= |line| && length <= |line|
  {
    var arg := SkipSeps(line, markerEnd);
    if arg >= length then m
    else
      var named := Matches(word, AtParam) || Matches(word, AtProp);
      var nameEnd := SkipWord(line, arg);
      var targ := if named then SkipSeps(line, nameEnd) else arg;
      if targ >= length then m
      else
        var tend := SkipWord(line, targ);
        var name := if named then line[arg..nameEnd] else "";
        Pushed(m, SlotOf(word), name, Desc(line, tend, length), ParseType(line[targ..tend]))
  }

  predicate IsFlag(d: Directive)
  {
    !(d.AtType? || d.AtInherit? || d.AtParam? || d.AtProp? || d.AtReturn?)
  }

  /** A flag directive sets its flag; `const` and `readonly` share one. */
  function SetFlag(m: MarkerState, d: Directive): MarkerState
    requires IsFlag(d)
  {
    match d
    case AtConst => m.(flags := m.flags.(fReadonly := true))
    case AtReadonly => m.(flags := m.flags.(fReadonly := true))
    case AtVar => m.(flags := m.flags.(fVar := true))
    case AtModule => m.(flags := m.flags.(fModule := true))
    case AtClass => m.(flags := m.flags.(fClass := true))
    case AtPublic => m.(flags := m.flags.(fPublic := true))
    case AtPrivate => m.(flags := m.flags.(fPrivate := true))
    case AtConstructor => m.(flags := m.flags.(fConstructor := true))
    case AtStatic => m.(flags := m.flags.(fStatic := true))
  }

  /** The `type` branch: the first word after the directive, if it starts within the line. */
  function TypeLine(m: MarkerState, line: string, length: nat, markerEnd: nat): MarkerState
    requires markerEnd <= |line| && length <= |line|
  {
    var arg := SkipSeps(line, markerEnd);
    if arg >= length then m
    else m.(types := Some(m.types.GetOr([]) + ParseType(line[arg..SkipWord(line, arg)])))
  }

  /** The directive word: the text after the `@` up to the first separator. */
  function WordOf(line: string): string
    requires 1 <= |line|
  {
    line[1..SkipWord(line, 1)]
  }

  /** What `parse_marker` does to the accumulator `m` for one directive line. */
  function ParseMarkerSpec(m: MarkerState, line: string, length: nat): MarkerState
    requires 1 <= length <= |line|
  {
    match MatchDirective(WordOf(line))
    case None => m
    case Some(d) => Directed(m, d, line, length)
  }

  /** What a line whose word selected the directive `d` does. */
  function Directed(m: MarkerState, d: Directive, line: string, length: nat): MarkerState
    requires 1 <= length <= |line|
  {
    var markerEnd := SkipWord(line, 1);
    if IsFlag(d) then SetFlag(m, d)
    else if d == AtType then TypeLine(m, line, length, markerEnd)
    else if d == AtInherit then
      m.(inheritance := Some(m.inheritance.GetOr([]) + Words(line, SkipSeps(line, markerEnd), length)))
    else Entry(m, line, length, WordOf(line), markerEnd)
  }

  // ---------------------------------------------------------------------------
  // The accumulator as the source keeps it

  /** `struct markers`, updated in place by `parse_marker`. */
  class Markers {
    var flags: Flags
    var types: Option<seq<Type>>
    var returnPairs: Option<seq<MarkerPair>>
    var params: Option<seq<MarkerPairNamed>>
    var props: Option<seq<MarkerPairNamed>>
    var inheritance: Option<seq<string>>

    function State(): MarkerState
      reads this
    {
      MarkerState(flags, types, returnPairs, params, props, inheritance)
    }

    /** `markers_new`. */
    constructor ()
      ensures State() == NoMarkers()
    {
      flags := NoFlags();
      types, returnPairs, params, props, inheritance := None, None, None, None, None;
    }

    /** `parse_marker`. */
    method ParseMarker(line: string, length: nat)
      requires 1 <= length <= |line|
      modifies this
      ensures State() == ParseMarkerSpec(old(State()), line, length)
    {
      var markerEnd := SkipWord(line, 1);
      var word := line[1..markerEnd];
      var d := MatchDirective(word);
      if d.None? {
        return;
      }
      if IsFlag(d.value) {
        RaiseFlag(d.value);
      } else if d.value == AtType {
        var arg := SkipSeps(line, markerEnd);
        if arg >= length {
          return;
        }
        var ts := ParseTypeInto(line[arg..SkipWord(line, arg)], types);
        types := Some(ts);
      } else if d.value == AtInherit {
        Inherit(line, length, markerEnd);
      } else {
        AddEntry(line, length, word, markerEnd);
      }
    }

    method RaiseFlag(d: Directive)
      requires IsFlag(d)
      modifies this
      ensures State() == SetFlag(old(State()), d)
    {
      match d
      case AtConst => flags := flags.(fReadonly := true);
      case AtReadonly => flags := flags.(fReadonly := true);
      case AtVar => flags := flags.(fVar := true);
      case AtModule => flags := flags.(fModule := true);
      case AtClass => flags := flags.(fClass := true);
      case AtPublic => flags := flags.(fPublic := true);
      case AtPrivate => flags := flags.(fPrivate := true);
      case AtConstructor => flags := flags.(fConstructor := true);
      case AtStatic => flags := flags.(fStatic := true);
    }

    /** The `inherit` branch: push every word up to the line end. */
    method Inherit(line: string, length: nat, markerEnd: nat)
      requires markerEnd <= |line| && length <= |line|
      modifies this
      ensures State() == old(State()).(inheritance :=
        Some(old(inheritance).GetOr([]) + Words(line, SkipSeps(line, markerEnd), length)))
    {
      if inheritance.None? {
        inheritance := Some([]);
      }
      var arg := SkipSeps(line, markerEnd);
      ghost var all := Words(line, arg, length);
      hide Words;
      while arg < length
        invariant arg <= |line|
        invariant inheritance.Some?
        invariant inheritance.value + Words(line, arg, length) == old(inheritance).GetOr([]) + all
        invariant State() == old(State()).(inheritance := inheritance)
        decreases |line| - arg
      {
        var e := SkipWord(line, arg);
        var w := line[arg..e];
        WordsStep(line, arg, length, w, e, SkipSeps(line, e));
        ConcatAssoc(inheritance.value, [w], Words(line, SkipSeps(line, e), length));
        inheritance := Some(inheritance.value + [w]);
        arg := SkipSeps(line, e);
      }
      WordsEnd(line, arg, length);
      assert inheritance.value + [] == inheritance.value;
    }

    /** The `param`, `prop` and `return` branch. */
    method AddEntry(line: string, length: nat, word: string, markerEnd: nat)
      requires markerEnd <= |line| && length <= |line|
      modifies this
      ensures State() == Entry(old(State()), line, length, word, markerEnd)
    {
      var arg := SkipSeps(line, markerEnd);
      if arg >= length {
        return;
      }
      var name := "";
      var nameEnd := SkipWord(line, arg);
      var targ := arg;
      if Matches(word, AtParam) || Matches(word, AtProp) {
        name := line[arg..nameEnd];
        targ := SkipSeps(line, nameEnd);
        if targ >= length {
          return;
        }
      }
      var tend := SkipWord(line, targ);
      var typeset := ParseTypeInto(line[targ..tend], None);
      assert typeset == ParseType(line[targ..tend]);
      var desc: Option<string> := None;
      var darg := SkipSeps(line, tend);
      if darg < length {
        desc := Some(line[darg..length]);
      }
      Push(SlotOf(word), name, desc, typeset);
    }

    method Push(slot: Slot, name: string, desc: Option<string>, typeset: seq<Type>)
      modifies this
      ensures State() == Pushed(old(State()), slot, name, desc, typeset)
    {
      match slot
      case ReturnSlot =>
        returnPairs := Some(returnPairs.GetOr([]) + [MarkerPair(desc, typeset)]);
      case ParamSlot =>
        params := Some(params.GetOr([]) + [MarkerPairNamed(name, desc, typeset)]);
      case PropSlot =>
        props := Some(props.GetOr([]) + [MarkerPairNamed(name, desc, typeset)]);
    }
  }
}
