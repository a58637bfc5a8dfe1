/**
 * A printer for typesets, the inverse partner of the annotation parser:
 * printing a typeset and parsing the text gives the typeset back
 * (`ParsePrint`).  The proof follows the parser stage by stage through the
 * token tree that each stage produces for printed text: stage 0 after bracket
 * nesting, stage 1 after grouping at `,`, stage 2 after grouping at `|`.
 */
module TypePrinter {
  import opened Wrappers
  import opened Strings
  import opened TypeGrammar

  const Keywords: set<string> := {"nil", "any", "num", "str"}

  /**
   * The typesets the printer can express: class names are identifiers other
   * than the four keywords, and no function has exactly one, empty, parameter
   * typeset (its text `()` reads back as no parameters at all).
   */
  predicate PrintableSet(ts: seq<Type>)
    decreases ts, 1
  {
    forall k :: 0 <= k < |ts| ==> PrintableType(ts[k])
  }

  predicate PrintableType(t: Type)
    decreases t, 0
  {
    match t
    case Obj(name) => IsIdentifier(name) && name !in Keywords
    case List(es) => PrintableSet(es)
    case Hash(es) => PrintableSet(es)
    case Func(ps, ret) =>
      && (forall k :: 0 <= k < |ps| ==> PrintableSet(ps[k].alts))
      && !(|ps| == 1 && ps[0].alts == [])
      && (ret.Some? ==> PrintableSet(ret.value.alts))
    case _ => true
  }

  // ---------------------------------------------------------------------------
  // The printer

  function JoinStr(strs: seq<string>, c: char): string
  {
    if |strs| == 0 then "" else if |strs| == 1 then strs[0] else strs[0] + [c] + JoinStr(strs[1..], c)
  }

  /** The alternatives of a typeset separated by `|`. */
  function PrintSet(ts: seq<Type>): string
    decreases ts, 1
  {
    JoinStr(PrintAlts(ts), '|')
  }

  /** The printed alternatives, one by one. */
  function PrintAlts(ts: seq<Type>): (r: seq<string>)
    ensures |r| == |ts| && forall k :: 0 <= k < |ts| ==> r[k] == PrintAlt(ts[k])
    decreases ts, 0
  {
    seq(|ts|, k requires 0 <= k < |ts| => PrintAlt(ts[k]))
  }

  function AtomName(t: Type): string
    requires t.Nil? || t.Any? || t.Num? || t.Str? || t.Obj?
  {
    match t
    case Nil => "nil"
    case Any => "any"
    case Num => "num"
    case Str => "str"
    case Obj(name) => name
  }

  function PrintAlt(t: Type): string
    decreases t, 0
  {
    match t
    case List(es) => "[" + PrintSet(es) + "]"
    case Hash(es) => "{" + PrintSet(es) + "}"
    case Func(ps, ret) =>
      (if ret.Some? then "<" + PrintSet(ret.value.alts) + ">" else "") + "(" + PrintParams(ps) + ")"
    case _ => AtomName(t)
  }

  /** The parameter typesets separated by `,`. */
  function PrintParams(ps: seq<Typeset>): string
    decreases ps, 1
  {
    JoinStr(PrintSets(ps), ',')
  }

  /** The printed parameter typesets, one by one. */
  function PrintSets(ps: seq<Typeset>): (r: seq<string>)
    ensures |r| == |ps| && forall k :: 0 <= k < |ps| ==> r[k] == PrintSet(ps[k].alts)
    decreases ps, 0
  {
    seq(|ps|, k requires 0 <= k < |ps| => PrintSet(ps[k].alts))
  }

  // ---------------------------------------------------------------------------
  // The token trees of printed text

  function Leaf(l: Lexeme): TypeToken { TypeToken(l, "", []) }
  function Node(l: Lexeme, kids: seq<TypeToken>): TypeToken { TypeToken(l, "", kids) }

  function JoinSep(pieces: seq<seq<TypeToken>>, sep: TypeToken): seq<TypeToken>
  {
    if |pieces| == 0 then []
    else if |pieces| == 1 then pieces[0]
    else pieces[0] + [sep] + JoinSep(pieces[1..], sep)
  }

  /** A level of `op` groups, one per piece. */
  function Wrap(pieces: seq<seq<TypeToken>>, op: Lexeme): (r: seq<TypeToken>)
    ensures |r| == |pieces|
  {
    seq(|pieces|, k requires 0 <= k < |pieces| => Node(op, pieces[k]))
  }

  function SetTree(ts: seq<Type>, stage: nat): seq<TypeToken>
    decreases ts, 1
  {
    var alts := AltTrees(ts, stage);
    if stage >= 2 && |ts| >= 2 then Wrap(alts, Pipe) else JoinSep(alts, Leaf(Pipe))
  }

  /** The trees of the alternatives, one by one. */
  function AltTrees(ts: seq<Type>, stage: nat): (r: seq<seq<TypeToken>>)
    ensures |r| == |ts| && forall k :: 0 <= k < |ts| ==> r[k] == AltTree(ts[k], stage)
    decreases ts, 0
  {
    seq(|ts|, k requires 0 <= k < |ts| => AltTree(ts[k], stage))
  }

  function AltTree(t: Type, stage: nat): seq<TypeToken>
    decreases t, 0
  {
    match t
    case List(es) => [Node(LBrack, SetTree(es, stage))]
    case Hash(es) => [Node(LBrace, SetTree(es, stage))]
    case Func(ps, ret) =>
      (if ret.Some? then [Node(LAngle, SetTree(ret.value.alts, stage))] else [])
        + [Node(LParen, ParamsTree(ps, stage))]
    case _ => [TypeToken(Ident, AtomName(t), [])]
  }

  function ParamsTree(ps: seq<Typeset>, stage: nat): seq<TypeToken>
    decreases ps, 1
  {
    var sets := SetTrees(ps, stage);
    if stage >= 1 && |ps| >= 2 then Wrap(sets, Comma) else JoinSep(sets, Leaf(Comma))
  }

  /** The trees of the parameter typesets, one by one. */
  function SetTrees(ps: seq<Typeset>, stage: nat): (r: seq<seq<TypeToken>>)
    ensures |r| == |ps| && forall k :: 0 <= k < |ps| ==> r[k] == SetTree(ps[k].alts, stage)
    decreases ps, 0
  {
    seq(|ps|, k requires 0 <= k < |ps| => SetTree(ps[k].alts, stage))
  }

  function Closer(l: Lexeme): Lexeme
  {
    match l
    case LParen => RParen
    case LBrack => RBrack
    case LBrace => RBrace
    case _ => RAngle
  }

  /** The flat token list a tree is nested from: each group between its opener and closer. */
  function Flat(t: TypeToken): seq<TypeToken>
    decreases t, 1
  {
    if IsOpener(t.lexeme) then [TypeToken(t.lexeme, t.ident, [])] + FlatSeq(t.children) + [Leaf(Closer(t.lexeme))]
    else [t]
  }

  function FlatSeq(ts: seq<TypeToken>): seq<TypeToken>
    decreases ts, 0
  {
    if ts == [] then [] else Flat(ts[0]) + FlatSeq(ts[1..])
  }

  /** Trees whose leaves are no closers. */
  predicate WellNested(ts: seq<TypeToken>)
    decreases ts, 1
  {
    forall k :: 0 <= k < |ts| ==> WellNode(ts[k])
  }

  predicate WellNode(t: TypeToken)
    decreases t, 0
  {
    if IsOpener(t.lexeme) then WellNested(t.children) else !IsCloser(t.lexeme)
  }

  // ---------------------------------------------------------------------------
  // Stage 0: bracket nesting undoes flattening

  lemma {:induction false} GroupFlat(nodes: seq<TypeToken>, tail: seq<TypeToken>, open: Option<Lexeme>)
    requires WellNested(nodes)
    ensures Group(FlatSeq(nodes) + tail, open)
         == var g := Group(tail, open); Grouped(nodes + g.nodes, g.rest, g.closed)
    decreases nodes, 1
  {
    if nodes == [] {
      assert FlatSeq(nodes) + tail == tail;
      assert nodes + Group(tail, open).nodes == Group(tail, open).nodes;
    } else {
      WellNestedCons(nodes);
      GroupFlat(nodes[1..], tail, open);
      GroupFlatNode(nodes[0], FlatSeq(nodes[1..]) + tail, open);
      assert nodes == [nodes[0]] + nodes[1..];
      GroupFlatStep(nodes[0], nodes[1..], tail, open);
    }
  }

  /** The step of `GroupFlat`: the head node's group, then the groups of the tail. */
  lemma GroupFlatStep(n: TypeToken, ns: seq<TypeToken>, tail: seq<TypeToken>, open: Option<Lexeme>)
    requires Group(FlatSeq(ns) + tail, open)
          == var g := Group(tail, open); Grouped(ns + g.nodes, g.rest, g.closed)
    requires Group(Flat(n) + (FlatSeq(ns) + tail), open)
          == var g := Group(FlatSeq(ns) + tail, open); Grouped([n] + g.nodes, g.rest, g.closed)
    ensures Group(FlatSeq([n] + ns) + tail, open)
         == var g := Group(tail, open); Grouped([n] + ns + g.nodes, g.rest, g.closed)
  {
    FlatSeqCons(n, ns, tail);
    hide Group, FlatSeq, Flat;
    var g := Group(tail, open);
    assert [n] + (ns + g.nodes) == [n] + ns + g.nodes;
  }

  /** The head and the tail of a well-nested list are well nested. */
  lemma WellNestedCons(nodes: seq<TypeToken>)
    requires WellNested(nodes) && nodes != []
    ensures WellNode(nodes[0]) && WellNested(nodes[1..])
  {
    forall k | 0 <= k < |nodes| - 1 ensures WellNode(nodes[1..][k]) {
      assert nodes[1..][k] == nodes[k + 1];
    }
  }

  /** Flattening a list is flattening its head, then its tail. */
  lemma FlatSeqCons(n: TypeToken, ns: seq<TypeToken>, tail: seq<TypeToken>)
    ensures FlatSeq([n] + ns) + tail == Flat(n) + (FlatSeq(ns) + tail)
  {
    assert ([n] + ns)[0] == n && ([n] + ns)[1..] == ns;
  }

  lemma {:induction false} GroupFlatNode(n: TypeToken, y: seq<TypeToken>, open: Option<Lexeme>)
    requires WellNode(n)
    ensures Group(Flat(n) + y, open)
         == var g := Group(y, open); Grouped([n] + g.nodes, g.rest, g.closed)
    decreases n, 0
  {
    if IsOpener(n.lexeme) {
      GroupFlatOpener(n, y, open);
    } else {
      GroupHeadPlain(n, y, open);
      assert Flat(n) + y == [n] + y;
    }
  }

  /** The opener case of `GroupFlatNode`: the flattened group, then its closer. */
  lemma {:induction false} GroupFlatOpener(n: TypeToken, y: seq<TypeToken>, open: Option<Lexeme>)
    requires IsOpener(n.lexeme) && WellNested(n.children)
    ensures Group(Flat(n) + y, open)
         == var g := Group(y, open); Grouped([n] + g.nodes, g.rest, g.closed)
    decreases n, 0, 0
  {
    var l := n.lexeme;
    var close := Leaf(Closer(l));
    var h := TypeToken(l, n.ident, []);
    var inside := FlatSeq(n.children) + ([close] + y);
    assert Flat(n) + y == [h] + inside;
    hide Flat, FlatSeq, Group;
    GroupHeadClose(close, y, Some(l));
    GroupFlat(n.children, [close] + y, Some(l));
    assert n.children + [] == n.children;
    GroupHeadOpener(h, inside, open);
    assert TypeToken(l, n.ident, n.children) == n;
  }

  /** An opener takes the tokens up to its closer as children, and grouping goes on after the closer. */
  lemma GroupHeadOpener(h: TypeToken, rest: seq<TypeToken>, open: Option<Lexeme>)
    requires IsOpener(h.lexeme) && Group(rest, Some(h.lexeme)).closed
    ensures var inner := Group(rest, Some(h.lexeme));
      Group([h] + rest, open)
      == var after := Group(inner.rest, open); Grouped([TypeToken(h.lexeme, h.ident, inner.nodes)] + after.nodes, after.rest, after.closed)
  {
    assert ([h] + rest)[0] == h && ([h] + rest)[1..] == rest;
  }

  /** The closer of the open group ends it. */
  lemma GroupHeadClose(t: TypeToken, rest: seq<TypeToken>, open: Option<Lexeme>)
    requires open.Some? && IsOpener(open.value) && t.lexeme == Closer(open.value)
    ensures Group([t] + rest, open) == Grouped([], rest, true)
  {
    assert ([t] + rest)[0] == t && ([t] + rest)[1..] == rest;
    assert Closes(open.value, t.lexeme);
  }

  /** A token that neither opens nor closes a group stays where it is. */
  lemma GroupHeadPlain(t: TypeToken, rest: seq<TypeToken>, open: Option<Lexeme>)
    requires !IsOpener(t.lexeme) && !IsCloser(t.lexeme)
    ensures Group([t] + rest, open)
         == var after := Group(rest, open); Grouped([t] + after.nodes, after.rest, after.closed)
  {
    assert ([t] + rest)[0] == t && ([t] + rest)[1..] == rest;
  }

  /** Nesting the flattening of a well-nested tree gives the tree back. */
  lemma BracketsFlat(nodes: seq<TypeToken>)
    requires WellNested(nodes)
    ensures Brackets(FlatSeq(nodes)) == nodes
  {
    GroupFlat(nodes, [], None);
    assert FlatSeq(nodes) + [] == FlatSeq(nodes);
    assert nodes + [] == nodes;
  }

  // ---------------------------------------------------------------------------
  // Lists joined with a separator

  /** A map that distributes over concatenation and fixes the separator commutes with joining. */
  lemma {:induction false} JoinSepMap(pieces: seq<seq<TypeToken>>, sep: TypeToken, f: seq<TypeToken> -> seq<TypeToken>)
    requires forall a, b :: f(a + b) == f(a) + f(b)
    requires f([sep]) == [sep]
    ensures f(JoinSep(pieces, sep))
         == JoinSep(seq(|pieces|, k requires 0 <= k < |pieces| => f(pieces[k])), sep)
  {
    var mapped := seq(|pieces|, k requires 0 <= k < |pieces| => f(pieces[k]));
    if |pieces| == 0 {
      var e: seq<TypeToken> := [];
      assert e + e == e;
      assert f(e) == f(e) + f(e);
    } else if |pieces| >= 2 {
      JoinSepMap(pieces[1..], sep, f);
      assert mapped[1..] == seq(|pieces| - 1, k requires 0 <= k < |pieces| - 1 => f(pieces[1..][k]));
      var rest := JoinSep(pieces[1..], sep);
      assert f(pieces[0] + [sep] + rest) == f(pieces[0] + [sep]) + f(rest);
      assert f(pieces[0] + [sep]) == f(pieces[0]) + f([sep]);
    }
  }

  lemma NoOpAppend(a: seq<TypeToken>, b: seq<TypeToken>, op: Lexeme)
    ensures NoOp(a + b, op) <==> NoOp(a, op) && NoOp(b, op)
  {
    if NoOp(a, op) && NoOp(b, op) {
      forall k | 0 <= k < |a + b| ensures (a + b)[k].lexeme != op {
        if k >= |a| { assert (a + b)[k] == b[k - |a|]; }
      }
    }
    if NoOp(a + b, op) {
      forall k | 0 <= k < |a| ensures a[k].lexeme != op {
        assert (a + b)[k] == a[k];
      }
      forall k | 0 <= k < |b| ensures b[k].lexeme != op {
        assert (a + b)[|a| + k] == b[k];
      }
    }
  }

  lemma {:induction false} NoOpJoinSep(pieces: seq<seq<TypeToken>>, sep: TypeToken, op: Lexeme)
    requires sep.lexeme != op || |pieces| <= 1
    requires forall k :: 0 <= k < |pieces| ==> NoOp(pieces[k], op)
    ensures NoOp(JoinSep(pieces, sep), op)
  {
    if |pieces| >= 2 {
      NoOpJoinSep(pieces[1..], sep, op);
      NoOpAppend(pieces[0], [sep], op);
      NoOpAppend(pieces[0] + [sep], JoinSep(pieces[1..], sep), op);
    }
  }

  lemma {:induction false} SplitNoOpPrefix(a: seq<TypeToken>, rest: seq<TypeToken>, op: Lexeme)
    requires NoOp(a, op)
    ensures var p := Split(rest, op); Split(a + rest, op) == Pieces(a + p.first, p.seps, p.after)
  {
    if a == [] {
      assert a + rest == rest;
    } else {
      assert (a + rest)[1..] == a[1..] + rest;
      SplitNoOpPrefix(a[1..], rest, op);
      assert [a[0]] + (a[1..] + Split(rest, op).first) == a + Split(rest, op).first;
    }
  }

  lemma {:induction false} SplitJoinSep(pieces: seq<seq<TypeToken>>, op: Lexeme)
    requires |pieces| >= 1
    requires forall k :: 0 <= k < |pieces| ==> NoOp(pieces[k], op)
    ensures Split(JoinSep(pieces, Leaf(op)), op)
         == Pieces(pieces[0], seq(|pieces| - 1, k => Leaf(op)), pieces[1..])
  {
    if |pieces| == 1 {
      SplitNoOpPrefix(pieces[0], [], op);
      assert pieces[0] + [] == pieces[0];
      assert pieces[1..] == [];
    } else {
      hide Split, JoinSep;
      JoinSepHead(pieces, Leaf(op));
      var rest := JoinSep(pieces[1..], Leaf(op));
      SplitJoinSep(pieces[1..], op);
      SplitNoOpPrefix(pieces[0], [Leaf(op)] + rest, op);
      SplitAtSep(op, rest);
      var q := Split(rest, op);
      assert [Leaf(op)] + q.seps == seq(|pieces| - 1, k => Leaf(op));
      assert [q.first] + q.after == pieces[1..];
      assert pieces[0] + [] == pieces[0];
    }
  }

  /** The first piece, then the separator and the joined rest. */
  lemma JoinSepHead(pieces: seq<seq<TypeToken>>, sep: TypeToken)
    requires |pieces| >= 1
    ensures JoinSep(pieces, sep) ==
      if |pieces| == 1 then pieces[0] else pieces[0] + ([sep] + JoinSep(pieces[1..], sep))
  {
  }

  /** A level that starts with an `op` leaf: an empty first piece, then the pieces of what follows. */
  lemma SplitAtSep(op: Lexeme, rest: seq<TypeToken>)
    ensures var q := Split(rest, op);
            Split([Leaf(op)] + rest, op) == Pieces([], [Leaf(op)] + q.seps, [q.first] + q.after)
  {
    assert ([Leaf(op)] + rest)[1..] == rest;
  }

  lemma PieceLeaf(op: Lexeme, kids: seq<TypeToken>)
    ensures Piece(Leaf(op), kids) == Node(op, kids)
  {
  }

  /** Grouping a level whose pieces are joined by `op` leaves gives one `op` group per piece. */
  lemma GroupLevelJoinSep(pieces: seq<seq<TypeToken>>, op: Lexeme)
    requires |pieces| >= 2
    requires forall k :: 0 <= k < |pieces| ==> NoOp(pieces[k], op)
    ensures GroupLevel(JoinSep(pieces, Leaf(op)), op) == Wrap(pieces, op)
  {
    GroupLevelSplit(pieces, op);
    HeadsWrap(pieces, op);
  }

  /** The level holds an `op` leaf, so grouping is by its split into the pieces. */
  lemma GroupLevelSplit(pieces: seq<seq<TypeToken>>, op: Lexeme)
    requires |pieces| >= 2
    requires forall k :: 0 <= k < |pieces| ==> NoOp(pieces[k], op)
    ensures GroupLevel(JoinSep(pieces, Leaf(op)), op)
         == [Piece(Leaf(op), pieces[0])] + Heads(seq(|pieces| - 1, k => Leaf(op)), pieces[1..])
  {
    var level := JoinSep(pieces, Leaf(op));
    SplitJoinSep(pieces, op);
    assert level == pieces[0] + [Leaf(op)] + JoinSep(pieces[1..], Leaf(op));
    assert level[|pieces[0]|] == Leaf(op);
  }

  /** The first piece under a fresh `op` token and each later one under its separator are the `op` groups. */
  lemma HeadsWrap(pieces: seq<seq<TypeToken>>, op: Lexeme)
    requires |pieces| >= 1
    ensures [Piece(Leaf(op), pieces[0])] + Heads(seq(|pieces| - 1, k => Leaf(op)), pieces[1..]) == Wrap(pieces, op)
  {
    var seps := seq(|pieces| - 1, k => Leaf(op));
    var r := [Piece(Leaf(op), pieces[0])] + Heads(seps, pieces[1..]);
    var w := Wrap(pieces, op);
    forall k | 0 <= k < |pieces| ensures r[k] == w[k] {
      PieceLeaf(op, pieces[k]);
      if k > 0 {
        assert r[k] == Piece(seps[k - 1], pieces[1..][k - 1]);
      }
    }
  }

  lemma {:induction false} RegroupKidsAppend(a: seq<TypeToken>, b: seq<TypeToken>, op: Lexeme)
    ensures RegroupKids(a + b, op) == RegroupKids(a, op) + RegroupKids(b, op)
  {
    if a == [] {
      assert a + b == b;
    } else {
      assert (a + b)[1..] == a[1..] + b;
      RegroupKidsAppend(a[1..], b, op);
    }
  }

  lemma RegroupLeaf(t: TypeToken, op: Lexeme)
    requires t.children == []
    ensures RegroupKids([t], op) == [t]
  {
    assert RegroupOp([], op) == [];
  }

  /** Regrouping a single bracket node is regrouping its children. */
  lemma RegroupOne(l: Lexeme, a: seq<TypeToken>, b: seq<TypeToken>, op: Lexeme)
    requires RegroupOp(a, op) == b
    ensures RegroupKids([Node(l, a)], op) == [Node(l, b)]
  {
    assert [Node(l, a)][1..] == [];
  }

  /** A function type's tree regroups to the next stage once its parameters and return typeset do. */
  lemma RegroupFunc(ps: seq<Typeset>, ret: Option<Typeset>, stage: nat, op: Lexeme)
    requires RegroupOp(ParamsTree(ps, stage), op) == ParamsTree(ps, stage + 1)
    requires ret.Some? ==> RegroupOp(SetTree(ret.value.alts, stage), op) == SetTree(ret.value.alts, stage + 1)
    ensures RegroupKids(AltTree(Func(ps, ret), stage), op) == AltTree(Func(ps, ret), stage + 1)
  {
    var t := Func(ps, ret);
    var tail, tail' := [Node(LParen, ParamsTree(ps, stage))], [Node(LParen, ParamsTree(ps, stage + 1))];
    assert AltTree(t, stage) == (if ret.Some? then [Node(LAngle, SetTree(ret.value.alts, stage))] else []) + tail;
    assert AltTree(t, stage + 1) == (if ret.Some? then [Node(LAngle, SetTree(ret.value.alts, stage + 1))] else []) + tail';
    hide AltTree, RegroupOp, SetTree, ParamsTree;
    RegroupOne(LParen, ParamsTree(ps, stage), ParamsTree(ps, stage + 1), op);
    if ret.Some? {
      var head := [Node(LAngle, SetTree(ret.value.alts, stage))];
      RegroupOne(LAngle, SetTree(ret.value.alts, stage), SetTree(ret.value.alts, stage + 1), op);
      RegroupKidsAppend(head, tail, op);
    } else {
      assert [] + tail == tail && [] + tail' == tail';
    }
  }

  /** Regrouping the children of a level that holds no `op` is regrouping the level. */
  lemma RegroupOpNoOp(level: seq<TypeToken>, op: Lexeme)
    requires NoOp(level, op)
    ensures RegroupOp(level, op) == RegroupKids(level, op)
  {
    assert NoOp(RegroupKids(level, op), op);
  }

  lemma RegroupKidsJoinSep(pieces: seq<seq<TypeToken>>, sep: TypeToken, op: Lexeme)
    requires sep.children == []
    ensures RegroupKids(JoinSep(pieces, sep), op)
         == JoinSep(seq(|pieces|, k requires 0 <= k < |pieces| => RegroupKids(pieces[k], op)), sep)
  {
    var f := (x: seq<TypeToken>) => RegroupKids(x, op);
    forall a, b ensures f(a + b) == f(a) + f(b) {
      RegroupKidsAppend(a, b, op);
    }
    RegroupLeaf(sep, op);
    JoinSepMap(pieces, sep, f);
    assert seq(|pieces|, k requires 0 <= k < |pieces| => f(pieces[k]))
        == seq(|pieces|, k requires 0 <= k < |pieces| => RegroupKids(pieces[k], op));
  }

  lemma RegroupKidsWrap(pieces: seq<seq<TypeToken>>, l: Lexeme, op: Lexeme)
    ensures RegroupKids(Wrap(pieces, l), op)
         == Wrap(seq(|pieces|, k requires 0 <= k < |pieces| => RegroupOp(pieces[k], op)), l)
  {
    var level := Wrap(pieces, l);
    var mapped := Wrap(seq(|pieces|, k requires 0 <= k < |pieces| => RegroupOp(pieces[k], op)), l);
    RegroupKidsIsMap(level, mapped, op);
  }

  // ---------------------------------------------------------------------------
  // Which lexemes stand at the top of a printed tree

  predicate AltLexeme(l: Lexeme) { l == Ident || l == LBrack || l == LBrace || l == LAngle || l == LParen }

  lemma AltTreeTop(t: Type, stage: nat)
    ensures |AltTree(t, stage)| >= 1
    ensures forall k :: 0 <= k < |AltTree(t, stage)| ==> AltLexeme(AltTree(t, stage)[k].lexeme)
  {
  }

  lemma AltTreeNoOp(t: Type, stage: nat, op: Lexeme)
    requires !AltLexeme(op)
    ensures NoOp(AltTree(t, stage), op)
  {
    AltTreeTop(t, stage);
  }

  lemma SetTreeNoComma(ts: seq<Type>, stage: nat)
    ensures NoOp(SetTree(ts, stage), Comma)
    ensures |ts| >= 1 ==> |SetTree(ts, stage)| >= 1
  {
    var alts := AltTrees(ts, stage);
    forall k | 0 <= k < |ts| ensures NoOp(alts[k], Comma) {
      AltTreeNoOp(ts[k], stage, Comma);
    }
    if !(stage >= 2 && |ts| >= 2) {
      NoOpJoinSep(alts, Leaf(Pipe), Comma);
      if |ts| >= 1 {
        AltTreeTop(ts[0], stage);
      }
    }
  }

  // ---------------------------------------------------------------------------
  // Stage 1: grouping printed text at `,`

  lemma {:induction false} CommaSet(ts: seq<Type>)
    ensures RegroupOp(SetTree(ts, 0), Comma) == SetTree(ts, 1)
    decreases ts, 1
  {
    var alts0 := AltTrees(ts, 0);
    var alts1 := AltTrees(ts, 1);
    forall k | 0 <= k < |ts| ensures RegroupKids(alts0[k], Comma) == alts1[k] {
      CommaAlt(ts[k]);
    }
    RegroupKidsJoinSep(alts0, Leaf(Pipe), Comma);
    assert seq(|ts|, k requires 0 <= k < |ts| => RegroupKids(alts0[k], Comma)) == alts1;
    SetTreeNoComma(ts, 0);
    RegroupOpNoOp(SetTree(ts, 0), Comma);
  }

  lemma {:induction false} CommaAlt(t: Type)
    ensures RegroupKids(AltTree(t, 0), Comma) == AltTree(t, 1)
    decreases t, 0
  {
    hide RegroupOp, RegroupKids, SetTree, ParamsTree;
    match t
    case List(es) =>
      CommaSet(es);
      RegroupOne(LBrack, SetTree(es, 0), SetTree(es, 1), Comma);
    case Hash(es) =>
      CommaSet(es);
      RegroupOne(LBrace, SetTree(es, 0), SetTree(es, 1), Comma);
    case Func(ps, ret) =>
      CommaParams(ps);
      if ret.Some? {
        CommaSet(ret.value.alts);
      }
      RegroupFunc(ps, ret, 0, Comma);
    case _ =>
      RegroupLeaf(TypeToken(Ident, AtomName(t), []), Comma);
  }

  lemma {:induction false} CommaParams(ps: seq<Typeset>)
    ensures RegroupOp(ParamsTree(ps, 0), Comma) == ParamsTree(ps, 1)
    decreases ps, 1
  {
    var sets0 := SetTrees(ps, 0);
    var sets1 := SetTrees(ps, 1);
    forall k | 0 <= k < |ps| ensures RegroupKids(sets0[k], Comma) == sets1[k] && NoOp(sets1[k], Comma) {
      CommaSet(ps[k].alts);
      SetTreeNoComma(ps[k].alts, 0);
      SetTreeNoComma(ps[k].alts, 1);
      RegroupOpNoOp(sets0[k], Comma);
    }
    RegroupKidsJoinSep(sets0, Leaf(Comma), Comma);
    assert seq(|ps|, k requires 0 <= k < |ps| => RegroupKids(sets0[k], Comma)) == sets1;
    if |ps| >= 2 {
      GroupLevelJoinSep(sets1, Comma);
    } else {
      NoOpJoinSep(sets1, Leaf(Comma), Comma);
    }
  }

  // ---------------------------------------------------------------------------
  // Stage 2: grouping at `|`

  lemma {:induction false} PipeSet(ts: seq<Type>)
    ensures RegroupOp(SetTree(ts, 1), Pipe) == SetTree(ts, 2)
    decreases ts, 1
  {
    var alts1 := AltTrees(ts, 1);
    var alts2 := AltTrees(ts, 2);
    forall k | 0 <= k < |ts| ensures RegroupKids(alts1[k], Pipe) == alts2[k] && NoOp(alts2[k], Pipe) {
      PipeAlt(ts[k]);
      AltTreeNoOp(ts[k], 2, Pipe);
    }
    RegroupKidsJoinSep(alts1, Leaf(Pipe), Pipe);
    assert seq(|ts|, k requires 0 <= k < |ts| => RegroupKids(alts1[k], Pipe)) == alts2;
    if |ts| >= 2 {
      GroupLevelJoinSep(alts2, Pipe);
    } else {
      NoOpJoinSep(alts2, Leaf(Pipe), Pipe);
    }
  }

  lemma {:induction false} PipeAlt(t: Type)
    ensures RegroupKids(AltTree(t, 1), Pipe) == AltTree(t, 2)
    decreases t, 0
  {
    hide RegroupOp, RegroupKids, SetTree, ParamsTree;
    match t
    case List(es) =>
      PipeSet(es);
      RegroupOne(LBrack, SetTree(es, 1), SetTree(es, 2), Pipe);
    case Hash(es) =>
      PipeSet(es);
      RegroupOne(LBrace, SetTree(es, 1), SetTree(es, 2), Pipe);
    case Func(ps, ret) =>
      PipeParams(ps);
      if ret.Some? {
        PipeSet(ret.value.alts);
      }
      RegroupFunc(ps, ret, 1, Pipe);
    case _ =>
      RegroupLeaf(TypeToken(Ident, AtomName(t), []), Pipe);
  }

  lemma {:induction false} PipeParams(ps: seq<Typeset>)
    ensures RegroupOp(ParamsTree(ps, 1), Pipe) == ParamsTree(ps, 2)
    decreases ps, 1
  {
    var sets1 := SetTrees(ps, 1);
    var sets2 := SetTrees(ps, 2);
    forall k | 0 <= k < |ps| ensures RegroupOp(sets1[k], Pipe) == sets2[k] {
      PipeSet(ps[k].alts);
    }
    if |ps| >= 2 {
      var level := Wrap(sets1, Comma);
      assert NoOp(level, Pipe);
      RegroupOpNoOp(level, Pipe);
      RegroupKidsWrap(sets1, Comma, Pipe);
      assert seq(|ps|, k requires 0 <= k < |ps| => RegroupOp(sets1[k], Pipe)) == sets2;
    } else if |ps| == 0 {
      assert ParamsTree(ps, 1) == [];
      assert RegroupOp([], Pipe) == [];
    }
  }

  // ---------------------------------------------------------------------------
  // Lowering the stage-2 tree

  lemma {:induction false} ApplySet(ts: seq<Type>)
    requires PrintableSet(ts)
    ensures Apply(SetTree(ts, 2)) == ts
    decreases ts, 1
  {
    if |ts| == 1 {
      ApplyAlt(ts[0]);
    } else if |ts| >= 2 {
      ApplyEachAlts(ts);
    }
  }

  lemma {:induction false} ApplyEachAlts(ts: seq<Type>)
    requires PrintableSet(ts)
    ensures ApplyEach(Wrap(AltTrees(ts, 2), Pipe)) == ts
    decreases ts, 0
  {
    var level := Wrap(AltTrees(ts, 2), Pipe);
    if ts != [] {
      ApplyAlt(ts[0]);
      assert PrintableSet(ts[1..]);
      ApplyEachAlts(ts[1..]);
      assert level[1..] == Wrap(AltTrees(ts[1..], 2), Pipe);
      assert ts == [ts[0]] + ts[1..];
    }
  }

  lemma {:induction false} ApplyAlt(t: Type)
    requires PrintableType(t)
    ensures Apply(AltTree(t, 2)) == [t]
    decreases t, 2
  {
    hide SetTree, ParamsTree, ParamSets, ApplyEach, CommaSets, PrintableSet;
    match t
    case List(es) =>
      ApplySet(es);
    case Hash(es) =>
      ApplySet(es);
    case Func(ps, ret) =>
      ApplyParams(ps);
      if ret.Some? {
        ApplySet(ret.value.alts);
      }
    case _ =>
  }

  lemma {:induction false} ApplyParams(ps: seq<Typeset>)
    requires forall k :: 0 <= k < |ps| ==> PrintableSet(ps[k].alts)
    requires !(|ps| == 1 && ps[0].alts == [])
    ensures ParamSets(ParamsTree(ps, 2)) == ps
    decreases ps, 1
  {
    if |ps| == 1 {
      SetTreeNoComma(ps[0].alts, 2);
      ApplySet(ps[0].alts);
      assert ParamsTree(ps, 2) == SetTree(ps[0].alts, 2);
    } else if |ps| >= 2 {
      CommaSetsWrap(ps);
    }
  }

  lemma {:induction false} CommaSetsWrap(ps: seq<Typeset>)
    requires forall k :: 0 <= k < |ps| ==> PrintableSet(ps[k].alts)
    ensures CommaSets(Wrap(SetTrees(ps, 2), Comma)) == ps
    decreases ps, 0
  {
    var level := Wrap(SetTrees(ps, 2), Comma);
    if ps != [] {
      ApplySet(ps[0].alts);
      CommaSetsWrap(ps[1..]);
      assert level[1..] == Wrap(SetTrees(ps[1..], 2), Comma);
      assert ps == [ps[0]] + ps[1..];
    }
  }

  // ---------------------------------------------------------------------------
  // Lexing printed text gives the flattened stage-0 tree

  /** Text without NUL or blanks: a printed type is one word of a marker line. */
  predicate Plain(s: string)
  {
    forall k :: 0 <= k < |s| ==> s[k] != '\0' && !IsSep(s[k])
  }

  lemma PlainAppend(a: string, b: string)
    requires Plain(a) && Plain(b)
    ensures Plain(a + b)
  {
    forall k | 0 <= k < |a + b| ensures (a + b)[k] != '\0' && !IsSep((a + b)[k]) {
      if k < |a| { assert (a + b)[k] == a[k]; } else { assert (a + b)[k] == b[k - |a|]; }
    }
  }

  lemma {:induction false} FlatSeqAppend(a: seq<TypeToken>, b: seq<TypeToken>)
    ensures FlatSeq(a + b) == FlatSeq(a) + FlatSeq(b)
    decreases a
  {
    if a == [] {
      assert a + b == b;
    } else {
      assert (a + b)[0] == a[0] && (a + b)[1..] == a[1..] + b;
      FlatSeqAppend(a[1..], b);
    }
  }

  /** The token lists of the pieces, one by one. */
  function LexEach(strs: seq<string>): (r: seq<seq<TypeToken>>)
    ensures |r| == |strs| && forall k :: 0 <= k < |strs| ==> r[k] == Lex(strs[k])
  {
    seq(|strs|, k requires 0 <= k < |strs| => Lex(strs[k]))
  }

  /** The flattened pieces, one by one. */
  function FlatEach(pieces: seq<seq<TypeToken>>): (r: seq<seq<TypeToken>>)
    ensures |r| == |pieces| && forall k :: 0 <= k < |pieces| ==> r[k] == FlatSeq(pieces[k])
  {
    seq(|pieces|, k requires 0 <= k < |pieces| => FlatSeq(pieces[k]))
  }

  lemma FlatSeqJoinSep(pieces: seq<seq<TypeToken>>, sep: TypeToken)
    requires !IsOpener(sep.lexeme)
    ensures FlatSeq(JoinSep(pieces, sep))
         == JoinSep(FlatEach(pieces), sep)
  {
    var f := (x: seq<TypeToken>) => FlatSeq(x);
    forall a, b ensures f(a + b) == f(a) + f(b) {
      FlatSeqAppend(a, b);
    }
    assert FlatSeq([sep]) == Flat(sep) + FlatSeq([]);
    JoinSepMap(pieces, sep, f);
    assert seq(|pieces|, k requires 0 <= k < |pieces| => f(pieces[k])) == FlatEach(pieces);
  }

  lemma FlatNode(l: Lexeme, kids: seq<TypeToken>)
    requires IsOpener(l)
    ensures FlatSeq([Node(l, kids)]) == [Leaf(l)] + FlatSeq(kids) + [Leaf(Closer(l))]
  {
    assert [Node(l, kids)][1..] == [];
  }

  lemma {:induction false} LexJoinStr(strs: seq<string>, c: char)
    requires PunctLexeme(c).Some? && Plain([c])
    requires forall k :: 0 <= k < |strs| ==> Plain(strs[k])
    ensures Lex(JoinStr(strs, c))
         == JoinSep(LexEach(strs), Leaf(PunctLexeme(c).value))
    ensures Plain(JoinStr(strs, c))
  {
    var lexed := LexEach(strs);
    if |strs| >= 2 {
      var rest := JoinStr(strs[1..], c);
      LexJoinStr(strs[1..], c);
      assert lexed[1..] == LexEach(strs[1..]);
      PunctIsNotIdentChar(c);
      assert [c][0] == c;
      LexConcat(strs[0], [c]);
      PlainAppend(strs[0], [c]);
      assert (strs[0] + [c])[|strs[0] + [c]| - 1] == c;
      LexConcat(strs[0] + [c], rest);
      PlainAppend(strs[0] + [c], rest);
      LexPunct(c);
    }
  }

  /** The text of a bracket pair around `s` lexes to the pair's tokens around those of `s`. */
  lemma LexWrapped(o: char, s: string, c: char)
    requires PunctLexeme(o).Some? && PunctLexeme(c).Some?
    requires Plain([o]) && Plain(s) && Plain([c])
    ensures Lex([o] + s + [c]) == [Leaf(PunctLexeme(o).value)] + Lex(s) + [Leaf(PunctLexeme(c).value)]
    ensures Plain([o] + s + [c])
  {
    PunctIsNotIdentChar(o);
    PunctIsNotIdentChar(c);
    assert [o][0] == o && [c][0] == c;
    PlainAppend([o], s);
    PlainAppend([o] + s, [c]);
    LexConcat([o], s);
    LexConcat([o] + s, [c]);
    LexPunct(o);
    LexPunct(c);
  }

  lemma IdentifierPlain(name: string)
    requires IsIdentifier(name)
    ensures Plain(name)
  {
  }

  lemma {:induction false} LexSet(ts: seq<Type>)
    requires PrintableSet(ts)
    ensures Lex(PrintSet(ts)) == FlatSeq(SetTree(ts, 0))
    ensures Plain(PrintSet(ts))
    decreases ts, 1
  {
    var strs := PrintAlts(ts);
    var alts := AltTrees(ts, 0);
    assert PrintSet(ts) == JoinStr(strs, '|');
    assert SetTree(ts, 0) == JoinSep(alts, Leaf(Pipe));
    hide Lex, LexFrom, FlatSeq, Flat, PrintSet, PrintParams, SetTree, ParamsTree, PrintAlt, AltTree, JoinStr, JoinSep, LexEach, FlatEach, PrintableType;
    LexEachAlt(ts);
    assert PunctLexeme('|') == Some(Pipe) && Plain("|");
    LexJoinStr(strs, '|');
    FlatSeqJoinSep(alts, Leaf(Pipe));
    assert Lex(JoinStr(strs, '|')) == JoinSep(FlatEach(alts), Leaf(Pipe));
  }

  /** Each printed alternative lexes to its flattened tree. */
  lemma {:induction false} LexEachAlt(ts: seq<Type>)
    requires PrintableSet(ts)
    ensures LexEach(PrintAlts(ts)) == FlatEach(AltTrees(ts, 0))
    ensures forall k :: 0 <= k < |ts| ==> Plain(PrintAlts(ts)[k])
    decreases ts, 0
  {
    hide Lex, LexFrom, FlatSeq, Flat, PrintSet, PrintParams, SetTree, ParamsTree, PrintAlt, AltTree, JoinStr, JoinSep, LexEach, FlatEach, PrintableType;
    var strs := PrintAlts(ts);
    var alts := AltTrees(ts, 0);
    forall k | 0 <= k < |ts| ensures Lex(strs[k]) == FlatSeq(alts[k]) && Plain(strs[k]) {
      LexAlt(ts[k]);
    }
    assert LexEach(strs) == FlatEach(alts);
  }

  lemma {:induction false} LexParams(ps: seq<Typeset>)
    requires forall k :: 0 <= k < |ps| ==> PrintableSet(ps[k].alts)
    ensures Lex(PrintParams(ps)) == FlatSeq(ParamsTree(ps, 0))
    ensures Plain(PrintParams(ps))
    decreases ps, 1
  {
    var strs := PrintSets(ps);
    var sets := SetTrees(ps, 0);
    assert PrintParams(ps) == JoinStr(strs, ',');
    assert ParamsTree(ps, 0) == JoinSep(sets, Leaf(Comma));
    hide Lex, LexFrom, FlatSeq, Flat, PrintSet, PrintParams, SetTree, ParamsTree, PrintAlt, AltTree, JoinStr, JoinSep, PrintableSet, LexEach, FlatEach;
    LexEachSet(ps);
    assert PunctLexeme(',') == Some(Comma) && Plain(",");
    LexJoinStr(strs, ',');
    FlatSeqJoinSep(sets, Leaf(Comma));
    assert Lex(JoinStr(strs, ',')) == JoinSep(FlatEach(sets), Leaf(Comma));
  }

  /** Each printed parameter typeset lexes to its flattened tree. */
  lemma {:induction false} LexEachSet(ps: seq<Typeset>)
    requires forall k :: 0 <= k < |ps| ==> PrintableSet(ps[k].alts)
    ensures LexEach(PrintSets(ps)) == FlatEach(SetTrees(ps, 0))
    ensures forall k :: 0 <= k < |ps| ==> Plain(PrintSets(ps)[k])
    decreases ps, 0
  {
    hide Lex, LexFrom, FlatSeq, Flat, PrintSet, PrintParams, SetTree, ParamsTree, PrintAlt, AltTree, JoinStr, JoinSep, PrintableSet, LexEach, FlatEach;
    var strs := PrintSets(ps);
    var sets := SetTrees(ps, 0);
    forall k | 0 <= k < |ps| ensures Lex(strs[k]) == FlatSeq(sets[k]) && Plain(strs[k]) {
      LexSet(ps[k].alts);
    }
    assert LexEach(strs) == FlatEach(sets);
  }

  lemma {:induction false} LexAlt(t: Type)
    requires PrintableType(t)
    ensures Lex(PrintAlt(t)) == FlatSeq(AltTree(t, 0))
    ensures Plain(PrintAlt(t))
    decreases t, 0
  {
    match t
    case List(es) =>
      hide Lex, LexFrom, FlatSeq, Flat, PrintSet, PrintParams, SetTree, ParamsTree, PrintableSet;
      LexGroup('[', ']', LBrack, es);
    case Hash(es) =>
      hide Lex, LexFrom, FlatSeq, Flat, PrintSet, PrintParams, SetTree, ParamsTree, PrintableSet;
      LexGroup('{', '}', LBrace, es);
    case Func(ps, ret) =>
      LexFunc(ps, ret);
    case _ =>
      LexAtom(t);
  }

  /** A named variant prints as one identifier, which lexes to one token. */
  lemma LexAtom(t: Type)
    requires t.Nil? || t.Any? || t.Num? || t.Str? || t.Obj?
    requires PrintableType(t)
    ensures Lex(PrintAlt(t)) == FlatSeq(AltTree(t, 0))
    ensures Plain(PrintAlt(t))
  {
    var name := AtomName(t);
    assert IsIdentifier(name);
    assert PrintAlt(t) == name && AltTree(t, 0) == [TypeToken(Ident, name, [])];
    hide PrintAlt, AltTree, IsIdentifier;
    LexIdentifier(name);
    IdentifierPlain(name);
    assert FlatSeq([TypeToken(Ident, name, [])]) == [TypeToken(Ident, name, [])];
  }

  lemma {:induction false} LexFunc(ps: seq<Typeset>, ret: Option<Typeset>)
    requires PrintableType(Func(ps, ret))
    ensures Lex(PrintAlt(Func(ps, ret))) == FlatSeq(AltTree(Func(ps, ret), 0))
    ensures Plain(PrintAlt(Func(ps, ret)))
    decreases Func(ps, ret), 0, 1
  {
    hide Lex, LexFrom, FlatSeq, Flat, PrintSet, PrintParams, SetTree, ParamsTree, PrintableSet, PrintAlt, AltTree;
    LexParenthesised(ps);
    if ret.Some? {
      LexGroup('<', '>', LAngle, ret.value.alts);
    }
    LexFuncJoin(ps, ret);
  }

  /** A function type's text is its return group's text, if any, followed by its parameter list's. */
  lemma LexFuncJoin(ps: seq<Typeset>, ret: Option<Typeset>)
    requires Lex("(" + PrintParams(ps) + ")") == FlatSeq([Node(LParen, ParamsTree(ps, 0))])
    requires Plain("(" + PrintParams(ps) + ")")
    requires ret.Some? ==> Lex("<" + PrintSet(ret.value.alts) + ">") == FlatSeq([Node(LAngle, SetTree(ret.value.alts, 0))])
    requires ret.Some? ==> Plain("<" + PrintSet(ret.value.alts) + ">")
    ensures Lex(PrintAlt(Func(ps, ret))) == FlatSeq(AltTree(Func(ps, ret), 0))
    ensures Plain(PrintAlt(Func(ps, ret)))
  {
    hide Lex, LexFrom, FlatSeq, Flat, PrintSet, PrintParams, SetTree, ParamsTree, PrintableSet;
    var q := "(" + PrintParams(ps) + ")";
    var b := [Node(LParen, ParamsTree(ps, 0))];
    if ret.Some? {
      var r := "<" + PrintSet(ret.value.alts) + ">";
      var a := [Node(LAngle, SetTree(ret.value.alts, 0))];
      assert PrintAlt(Func(ps, ret)) == r + q;
      assert AltTree(Func(ps, ret), 0) == a + b;
      assert q[0] == '(';
      LexConcat(r, q);
      PlainAppend(r, q);
      FlatSeqAppend(a, b);
    } else {
      assert PrintAlt(Func(ps, ret)) == q;
      assert AltTree(Func(ps, ret), 0) == b;
    }
  }

  /** The parameter list of a function type, in its parentheses. */
  lemma {:induction false} LexParenthesised(ps: seq<Typeset>)
    requires forall k :: 0 <= k < |ps| ==> PrintableSet(ps[k].alts)
    ensures Lex("(" + PrintParams(ps) + ")") == FlatSeq([Node(LParen, ParamsTree(ps, 0))])
    ensures Plain("(" + PrintParams(ps) + ")")
    decreases ps, 2
  {
    hide Lex, LexFrom, FlatSeq, Flat, PrintSet, PrintParams, SetTree, ParamsTree, PrintableSet;
    LexParams(ps);
    LexWrapped('(', PrintParams(ps), ')');
    FlatNode(LParen, ParamsTree(ps, 0));
  }

  /** A typeset in a bracket pair: the list and hash brackets, and the angle brackets of a return type. */
  lemma {:induction false} LexGroup(o: char, c: char, l: Lexeme, ts: seq<Type>)
    requires PrintableSet(ts) && IsOpener(l)
    requires PunctLexeme(o) == Some(l) && PunctLexeme(c) == Some(Closer(l)) && Plain([o]) && Plain([c])
    ensures Lex([o] + PrintSet(ts) + [c]) == FlatSeq([Node(l, SetTree(ts, 0))])
    ensures Plain([o] + PrintSet(ts) + [c])
    decreases ts, 2
  {
    hide Lex, LexFrom, FlatSeq, Flat, PrintSet, PrintParams, SetTree, ParamsTree, PrintableSet;
    LexSet(ts);
    LexWrapped(o, PrintSet(ts), c);
    FlatNode(l, SetTree(ts, 0));
  }

  // ---------------------------------------------------------------------------
  // Printed trees are well nested

  lemma WellNestedAppend(a: seq<TypeToken>, b: seq<TypeToken>)
    requires WellNested(a) && WellNested(b)
    ensures WellNested(a + b)
  {
    forall k | 0 <= k < |a + b| ensures WellNode((a + b)[k]) {
      if k < |a| { assert (a + b)[k] == a[k]; } else { assert (a + b)[k] == b[k - |a|]; }
    }
  }

  lemma {:induction false} WellNestedJoinSep(pieces: seq<seq<TypeToken>>, sep: TypeToken)
    requires WellNode(sep)
    requires forall k :: 0 <= k < |pieces| ==> WellNested(pieces[k])
    ensures WellNested(JoinSep(pieces, sep))
  {
    if |pieces| >= 2 {
      WellNestedJoinSep(pieces[1..], sep);
      WellNestedAppend(pieces[0], [sep]);
      WellNestedAppend(pieces[0] + [sep], JoinSep(pieces[1..], sep));
    }
  }

  lemma {:induction false} NestedSet(ts: seq<Type>)
    ensures WellNested(SetTree(ts, 0))
    decreases ts, 1
  {
    var alts := AltTrees(ts, 0);
    assert SetTree(ts, 0) == JoinSep(alts, Leaf(Pipe));
    hide Lex, LexFrom, FlatSeq, Flat, PrintSet, PrintParams, SetTree, ParamsTree, PrintAlt, AltTree, JoinStr, JoinSep, PrintableSet;
    forall k | 0 <= k < |ts| ensures WellNested(alts[k]) {
      NestedAlt(ts[k]);
    }
    WellNestedJoinSep(alts, Leaf(Pipe));
  }

  lemma {:induction false} NestedAlt(t: Type)
    ensures WellNested(AltTree(t, 0))
    decreases t, 0
  {
    match t
    case List(es) =>
      NestedSet(es);
    case Hash(es) =>
      NestedSet(es);
    case Func(ps, ret) =>
      NestedParams(ps);
      var b := [Node(LParen, ParamsTree(ps, 0))];
      if ret.Some? {
        NestedSet(ret.value.alts);
        WellNestedAppend([Node(LAngle, SetTree(ret.value.alts, 0))], b);
      } else {
        assert AltTree(t, 0) == b;
      }
    case _ =>
  }

  lemma {:induction false} NestedParams(ps: seq<Typeset>)
    ensures WellNested(ParamsTree(ps, 0))
    decreases ps, 1
  {
    var sets := SetTrees(ps, 0);
    assert ParamsTree(ps, 0) == JoinSep(sets, Leaf(Comma));
    hide Lex, LexFrom, FlatSeq, Flat, PrintSet, PrintParams, SetTree, ParamsTree, PrintAlt, AltTree, JoinStr, JoinSep, PrintableSet;
    forall k | 0 <= k < |ps| ensures WellNested(sets[k]) {
      NestedSet(ps[k].alts);
    }
    WellNestedJoinSep(sets, Leaf(Comma));
  }

  // ---------------------------------------------------------------------------
  // The round trip

  /** Parsing the printed text of a printable typeset gives the typeset back. */
  lemma ParsePrint(ts: seq<Type>)
    requires PrintableSet(ts)
    ensures ParseType(PrintSet(ts)) == ts
    ensures Plain(PrintSet(ts))
  {
    LexSet(ts);
    NestedSet(ts);
    BracketsFlat(SetTree(ts, 0));
    CommaSet(ts);
    PipeSet(ts);
    ApplySet(ts);
  }

  /** Printing is one-to-one on printable typesets. */
  lemma PrintInjective(a: seq<Type>, b: seq<Type>)
    requires PrintableSet(a) && PrintableSet(b)
    requires PrintSet(a) == PrintSet(b)
    ensures a == b
  {
    ParsePrint(a);
    ParsePrint(b);
  }
}
