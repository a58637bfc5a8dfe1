/**
 * Worked annotations: what `parse_type` makes of a few typical type words.
 */
module TypeExamples {
  import opened Wrappers
  import opened TypeGrammar
  import opened TypePrinter

  /** `(num|str,any)`: a function of two parameters, the first a union. */
  lemma FuncParams()
    ensures ParseType("(num|str,any)") == [Func([Typeset([Num, Str]), Typeset([Any])], None)]
  {
    hide ParseType, Lex, LexFrom, Brackets, Group, RegroupOp, RegroupKids, Apply, ApplyEach;
    var ts := [Func([Typeset([Num, Str]), Typeset([Any])], None)];
    FuncParamsPrinted();
    assert PrintableSet(ts);
    hide PrintSet, PrintableSet;
    ParsePrint(ts);
  }

  lemma FuncParamsPrinted()
    ensures PrintSet([Func([Typeset([Num, Str]), Typeset([Any])], None)]) == "(num|str,any)"
  {
    var ps := [Typeset([Num, Str]), Typeset([Any])];
    NumOrStrAnyPrinted();
    hide PrintParams;
    assert PrintAlt(Func(ps, None)) == "(num|str,any)";
    assert PrintAlts([Func(ps, None)]) == ["(num|str,any)"];
  }

  lemma NumOrStrAnyPrinted()
    ensures PrintParams([Typeset([Num, Str]), Typeset([Any])]) == "num|str,any"
  {
    NumOrStrPrinted();
    assert PrintSet([Any]) == "any";
    var ps := [Typeset([Num, Str]), Typeset([Any])];
    hide PrintSet;
    assert PrintSets(ps) == ["num|str", "any"];
    assert JoinStr(["any"], ',') == "any";
  }

  lemma NumOrStrPrinted()
    ensures PrintSet([Num, Str]) == "num|str"
  {
    var alts := [Num, Str];
    assert PrintAlts(alts) == ["num", "str"];
    assert JoinStr(["str"], '|') == "str";
  }

  /** `<num>(str)`: a function of one `str` parameter returning `num`. */
  lemma FuncReturn()
    ensures ParseType("<num>(str)") == [Func([Typeset([Str])], Some(Typeset([Num])))]
  {
    hide ParseType, Lex, LexFrom, Brackets, Group, RegroupOp, RegroupKids, Apply, ApplyEach;
    var ts := [Func([Typeset([Str])], Some(Typeset([Num])))];
    assert PrintSet([Num]) == "num";
    assert PrintSet([Str]) == "str";
    assert PrintParams([Typeset([Str])]) == "str";
    assert PrintSet(ts) == "<num>(str)";
    ParsePrint(ts);
  }

  /** `[num]` is a vector of numbers. */
  lemma VectorOfNum()
    ensures ParseType("[num]") == [List([Num])]
  {
    hide ParseType, Lex, LexFrom, Brackets, Group, RegroupOp, RegroupKids, Apply, ApplyEach;
    assert PrintAlts([Num]) == ["num"];
    assert PrintSet([Num]) == "num";
    assert PrintAlt(List([Num])) == "[num]";
    assert PrintAlts([List([Num])]) == ["[num]"];
    assert PrintSet([List([Num])]) == "[num]";
    ParsePrint([List([Num])]);
  }

  /** `{str}` is a hash of strings. */
  lemma HashOfStr()
    ensures ParseType("{str}") == [Hash([Str])]
  {
    hide ParseType, Lex, LexFrom, Brackets, Group, RegroupOp, RegroupKids, Apply, ApplyEach;
    assert PrintAlts([Str]) == ["str"];
    assert PrintSet([Str]) == "str";
    assert PrintAlt(Hash([Str])) == "{str}";
    assert PrintAlts([Hash([Str])]) == ["{str}"];
    assert PrintSet([Hash([Str])]) == "{str}";
    ParsePrint([Hash([Str])]);
  }

  /** `num|str|Foo`: a union lists its alternatives left to right. */
  lemma Union()
    ensures ParseType("num|str|Foo") == [Num, Str, Obj("Foo")]
  {
    hide ParseType, Lex, LexFrom, Brackets, Group, RegroupOp, RegroupKids, Apply, ApplyEach;
    var ts := [Num, Str, Obj("Foo")];
    assert IsIdentifier("Foo");
    assert PrintAlts(ts) == ["num", "str", "Foo"];
    assert JoinStr(["Foo"], '|') == "Foo";
    assert JoinStr(["str", "Foo"], '|') == "str|Foo";
    assert PrintSet(ts) == "num|str|Foo";
    ParsePrint(ts);
  }

  /** The parser's stages, one equation each. */
  lemma Stages(s: string, toks: seq<TypeToken>, tree: seq<TypeToken>, c1: seq<TypeToken>, c2: seq<TypeToken>)
    requires Lex(s) == toks && Brackets(toks) == tree
    requires RegroupOp(tree, Comma) == c1 && RegroupOp(c1, Pipe) == c2
    ensures ParseType(s) == Apply(c2)
  {
  }

  /** `num[str]`: only the head token of an alternative contributes a variant. */
  lemma HeadOnly(a: string, b: string)
    requires IsIdentifier(a) && IsIdentifier(b)
    ensures ParseType(a + "[" + b + "]") == [IdentType(a)]
  {
    hide Lex, LexFrom, IsIdentifier, FlatSeq, Flat, Brackets, Group;
    var ta, tb := TypeToken(Ident, a, []), TypeToken(Ident, b, []);
    var tree := [ta, Node(LBrack, [tb])];
    HeadOnlyLex(a, b);
    BracketsFlat(tree);
    HeadOnlyRegroup(a, b, Comma);
    HeadOnlyRegroup(a, b, Pipe);
    Stages(a + "[" + b + "]", FlatSeq(tree), tree, tree, tree);
  }

  lemma HeadOnlyLex(a: string, b: string)
    requires IsIdentifier(a) && IsIdentifier(b)
    ensures Lex(a + "[" + b + "]") == FlatSeq([TypeToken(Ident, a, []), Node(LBrack, [TypeToken(Ident, b, [])])])
    ensures WellNested([TypeToken(Ident, a, []), Node(LBrack, [TypeToken(Ident, b, [])])])
  {
    var ta, tb := TypeToken(Ident, a, []), TypeToken(Ident, b, []);
    HeadOnlyTokens(a, b);
    HeadOnlyFlat(a, b);
    hide Lex, FlatSeq, IsIdentifier;
    assert WellNested([tb]);
    assert WellNode(ta) && WellNode(Node(LBrack, [tb]));
  }

  /** The tokens of `a[b]`: the identifier, the bracket, the identifier, the closer. */
  lemma HeadOnlyTokens(a: string, b: string)
    requires IsIdentifier(a) && IsIdentifier(b)
    ensures Lex(a + "[" + b + "]") == [TypeToken(Ident, a, [])] + ([Leaf(LBrack)] + [TypeToken(Ident, b, [])] + [Leaf(RBrack)])
  {
    hide ParseType, Brackets, Group, RegroupOp, RegroupKids, Apply, Lex, LexFrom, IsIdentifier;
    LexIdentifier(a);
    LexIdentifier(b);
    IdentifierPlain(b);
    LexWrapped('[', b, ']');
    var w := "[" + b + "]";
    assert a + "[" + b + "]" == a + w;
    assert w[0] == '[';
    PunctIsNotIdentChar('[');
    LexConcat(a, w);
  }

  /** The same tokens are what the tree `a` followed by the group `[b]` flattens to. */
  lemma HeadOnlyFlat(a: string, b: string)
    ensures var ta, tb := TypeToken(Ident, a, []), TypeToken(Ident, b, []);
      FlatSeq([ta, Node(LBrack, [tb])]) == [ta] + ([Leaf(LBrack)] + [tb] + [Leaf(RBrack)])
  {
    var ta, tb := TypeToken(Ident, a, []), TypeToken(Ident, b, []);
    FlatNode(LBrack, [tb]);
    assert FlatSeq([tb]) == [tb];
    FlatSeqAppend([ta], [Node(LBrack, [tb])]);
    assert [ta] + [Node(LBrack, [tb])] == [ta, Node(LBrack, [tb])];
    assert FlatSeq([ta]) == [ta];
  }

  lemma HeadOnlyRegroup(a: string, b: string, op: Lexeme)
    requires op == Comma || op == Pipe
    ensures var tree := [TypeToken(Ident, a, []), Node(LBrack, [TypeToken(Ident, b, [])])];
      RegroupOp(tree, op) == tree
  {
    var ta, tb := TypeToken(Ident, a, []), TypeToken(Ident, b, []);
    var tree := [ta, Node(LBrack, [tb])];
    RegroupLeaf(tb, op);
    assert RegroupOp([tb], op) == [tb];
    RegroupKidsIsMap(tree, tree, op);
    assert NoOp(tree, op);
  }

  /** `num,str`: a comma outside any bracket makes the annotation yield nothing. */
  lemma TopLevelComma(a: string, b: string)
    requires IsIdentifier(a) && IsIdentifier(b)
    ensures ParseType(a + "," + b) == []
  {
    hide Lex, LexFrom, IsIdentifier, FlatSeq, Flat, Brackets, Group, ParseType;
    var ta, tb := TypeToken(Ident, a, []), TypeToken(Ident, b, []);
    var flat := [ta, Leaf(Comma), tb];
    var c1 := Wrap([[ta], [tb]], Comma);
    TopLevelCommaLex(a, b);
    BracketsFlat(flat);
    TopLevelCommaRegroup(a, b);
    TopLevelCommaPipe(ta, tb, c1);
    hide RegroupOp, Wrap;
    Stages(a + "," + b, FlatSeq(flat), flat, c1, RegroupOp(c1, Pipe));
    ApplyCommaHead(RegroupOp(c1, Pipe));
  }

  /** The `|` pass keeps the two `,` groups, so the level still starts with `,`. */
  lemma TopLevelCommaPipe(ta: TypeToken, tb: TypeToken, c1: seq<TypeToken>)
    requires ta.lexeme == Ident && tb.lexeme == Ident && ta.children == [] && tb.children == []
    requires c1 == Wrap([[ta], [tb]], Comma)
    ensures |RegroupOp(c1, Pipe)| > 0 && RegroupOp(c1, Pipe)[0].lexeme == Comma
  {
    var pieces := [[ta], [tb]];
    assert NoOp(c1, Pipe);
    RegroupOpNoOp(c1, Pipe);
    RegroupKidsWrap(pieces, Comma, Pipe);
    var c2 := Wrap(seq(|pieces|, k requires 0 <= k < |pieces| => RegroupOp(pieces[k], Pipe)), Comma);
    assert RegroupOp(c1, Pipe) == c2;
    assert c2[0].lexeme == Comma;
  }

  /** A level headed by `,` lowers to no variant. */
  lemma ApplyCommaHead(level: seq<TypeToken>)
    requires |level| > 0 && level[0].lexeme == Comma
    ensures Apply(level) == []
  {
  }

  lemma TopLevelCommaLex(a: string, b: string)
    requires IsIdentifier(a) && IsIdentifier(b)
    ensures Lex(a + "," + b) == FlatSeq([TypeToken(Ident, a, []), Leaf(Comma), TypeToken(Ident, b, [])])
    ensures WellNested([TypeToken(Ident, a, []), Leaf(Comma), TypeToken(Ident, b, [])])
  {
    hide ParseType, Brackets, Group, RegroupOp, RegroupKids, Apply, Lex, LexFrom, IsIdentifier;
    TwoIdentsLex(a, b);
    ThreeFlat(TypeToken(Ident, a, []), TypeToken(Ident, b, []));
    ThreeWell(TypeToken(Ident, a, []), TypeToken(Ident, b, []));
  }

  lemma TwoIdentsLex(a: string, b: string)
    requires IsIdentifier(a) && IsIdentifier(b)
    ensures Lex(a + "," + b) == [TypeToken(Ident, a, []), Leaf(Comma), TypeToken(Ident, b, [])]
  {
    hide ParseType, Brackets, Group, RegroupOp, RegroupKids, Apply, Lex, LexFrom, IsIdentifier, FlatSeq, Flat;
    var ta, tb := TypeToken(Ident, a, []), TypeToken(Ident, b, []);
    IdentifierPlain(a);
    IdentifierPlain(b);
    LexJoinStr([a, b], ',');
    LexIdentifier(a);
    LexIdentifier(b);
    assert LexEach([a, b]) == [[ta], [tb]];
    assert JoinStr([a, b], ',') == a + "," + b;
    assert JoinSep([[ta], [tb]], Leaf(Comma)) == [ta, Leaf(Comma), tb];
  }

  /** Two identifiers around a `,` are their own flattening. */
  lemma ThreeFlat(ta: TypeToken, tb: TypeToken)
    requires ta.lexeme == Ident && tb.lexeme == Ident
    ensures FlatSeq([ta, Leaf(Comma), tb]) == [ta, Leaf(Comma), tb]
  {
    LeafFlat(tb, []);
    LeafFlat(Leaf(Comma), [tb]);
    LeafFlat(ta, [Leaf(Comma), tb]);
  }

  /** Two identifiers around a `,` are well nested. */
  lemma ThreeWell(ta: TypeToken, tb: TypeToken)
    requires ta.lexeme == Ident && tb.lexeme == Ident
    ensures WellNested([ta, Leaf(Comma), tb])
  {
    hide FlatSeq, Flat;
    var flat := [ta, Leaf(Comma), tb];
    assert WellNode(flat[0]) && WellNode(flat[1]) && WellNode(flat[2]);
  }

  /** A token that opens nothing flattens to itself. */
  lemma LeafFlat(t: TypeToken, rest: seq<TypeToken>)
    requires !IsOpener(t.lexeme) && FlatSeq(rest) == rest
    ensures FlatSeq([t] + rest) == [t] + rest
  {
    assert ([t] + rest)[1..] == rest;
  }

  lemma TopLevelCommaRegroup(a: string, b: string)
    ensures var ta, tb := TypeToken(Ident, a, []), TypeToken(Ident, b, []);
      RegroupOp([ta, Leaf(Comma), tb], Comma) == Wrap([[ta], [tb]], Comma)
  {
    var ta, tb := TypeToken(Ident, a, []), TypeToken(Ident, b, []);
    var flat := [ta, Leaf(Comma), tb];
    ThreeKids(ta, tb, flat);
    ThreeGroups(ta, tb, flat);
    hide RegroupKids, GroupLevel, Wrap;
    assert RegroupOp(flat, Comma) == GroupLevel(RegroupKids(flat, Comma), Comma);
  }

  /** The `,` pass leaves the children of two identifiers around a `,` alone. */
  lemma ThreeKids(ta: TypeToken, tb: TypeToken, flat: seq<TypeToken>)
    requires ta.children == [] && tb.children == [] && flat == [ta, Leaf(Comma), tb]
    ensures RegroupKids(flat, Comma) == flat
  {
    hide RegroupOp, GroupLevel, Wrap;
    var pieces := [[ta], [tb]];
    assert JoinSep(pieces, Leaf(Comma)) == flat;
    RegroupKidsJoinSep(pieces, Leaf(Comma), Comma);
    RegroupLeaf(ta, Comma);
    RegroupLeaf(tb, Comma);
    assert seq(2, k requires 0 <= k < 2 => RegroupKids(pieces[k], Comma)) == pieces;
  }

  /** The `,` level of two identifiers around a `,`: one `,` group for each. */
  lemma ThreeGroups(ta: TypeToken, tb: TypeToken, flat: seq<TypeToken>)
    requires ta.lexeme == Ident && tb.lexeme == Ident && flat == [ta, Leaf(Comma), tb]
    ensures GroupLevel(flat, Comma) == Wrap([[ta], [tb]], Comma)
  {
    hide RegroupOp, RegroupKids;
    var pieces := [[ta], [tb]];
    assert JoinSep(pieces, Leaf(Comma)) == flat;
    assert NoOp(pieces[0], Comma) && NoOp(pieces[1], Comma);
    GroupLevelJoinSep(pieces, Comma);
  }

  /** `!` and `*` are the short spellings of `nil` and `any`. */
  lemma ShortSpellings()
    ensures ParseType("!") == [Nil]
    ensures ParseType("*") == [Any]
  {
    ShortSpelling('!');
    ShortSpelling('*');
  }

  lemma ShortSpelling(c: char)
    requires c == '!' || c == '*'
    ensures ParseType([c]) == if c == '!' then [Nil] else [Any]
  {
    hide ParseType;
    if c == '!' {
      LoneLeaf(c, Bang);
      LeafApplies(Bang);
    } else {
      LoneLeaf(c, Star);
      LeafApplies(Star);
    }
  }

  /** A lone `!` leaf denotes nil and a lone `*` leaf any value. */
  lemma LeafApplies(l: Lexeme)
    requires l == Bang || l == Star
    ensures Apply([Leaf(l)]) == if l == Bang then [Nil] else [Any]
  {
    var level := [Leaf(l)];
    assert level[0].lexeme == l;
  }

  /** A lone `!` or `*` passes the bracket and operator stages unchanged. */
  lemma LoneLeaf(c: char, l: Lexeme)
    requires PunctLexeme(c) == Some(l) && (l == Bang || l == Star)
    ensures ParseType([c]) == Apply([Leaf(l)])
  {
    hide Lex, LexFrom, IsIdentifier, ParseType, Apply;
    var t := Leaf(l);
    LexPunct(c);
    assert Group([], None) == Grouped([], [], false);
    assert Brackets([t]) == [t];
    RegroupLeaf(t, Comma);
    RegroupLeaf(t, Pipe);
    assert RegroupOp([t], Comma) == [t];
    assert RegroupOp([t], Pipe) == [t];
    Stages([c], [t], [t], [t], [t]);
  }

  /** Text with no token characters yields no variants. */
  lemma NoTokens()
    ensures ParseType(" ;.") == []
  {
    var toks := Lex(" ;.");
    assert toks == [] by {
      assert LexFrom(" ;.", 3) == [];
      assert LexFrom(" ;.", 2) == [];
      assert LexFrom(" ;.", 1) == [];
    }
    assert Brackets(toks) == [];
    assert RegroupOp([], Comma) == [];
    assert RegroupOp([], Pipe) == [];
  }

  /** `[Foo`: an opener without a closer takes every token after it as its children. */
  lemma UnclosedOpener(a: string)
    requires IsIdentifier(a)
    ensures ParseType("[" + a) == [List([IdentType(a)])]
  {
    hide Lex, LexFrom, IsIdentifier, ParseType, RegroupOp;
    var ta := TypeToken(Ident, a, []);
    var tree := [Node(LBrack, [ta])];
    OpenerLex(a);
    assert Group([ta], Some(LBrack)) == Grouped([ta], [], false) by {
      assert Group([], Some(LBrack)) == Grouped([], [], false);
    }
    assert Brackets([Leaf(LBrack), ta]) == tree;
    BracketKeeps([ta], Comma);
    BracketKeeps([ta], Pipe);
    Stages("[" + a, [Leaf(LBrack), ta], tree, tree, tree);
    assert Apply([ta]) == [IdentType(a)];
  }

  /** `[Foo)`: a closer that does not match the open bracket stays inside it and is passed over. */
  lemma MismatchedCloser(a: string)
    requires IsIdentifier(a)
    ensures ParseType("[" + a + ")") == [List([IdentType(a)])]
  {
    hide Lex, LexFrom, IsIdentifier, ParseType, RegroupOp;
    var ta := TypeToken(Ident, a, []);
    var kids := [ta, Leaf(RParen)];
    var tree := [Node(LBrack, kids)];
    IdentifierPlain(a);
    LexIdentifier(a);
    LexWrapped('[', a, ')');
    assert Lex("[" + a + ")") == [Leaf(LBrack), ta, Leaf(RParen)] by {
      assert "[" + a + ")" == ['['] + a + [')'];
    }
    assert Group([ta, Leaf(RParen)], Some(LBrack)) == Grouped(kids, [], false) by {
      assert Group([], Some(LBrack)) == Grouped([], [], false);
      assert [Leaf(RParen)][1..] == [];
      assert Group([Leaf(RParen)], Some(LBrack)) == Grouped([Leaf(RParen)], [], false);
      assert [ta, Leaf(RParen)][1..] == [Leaf(RParen)];
    }
    assert Brackets([Leaf(LBrack), ta, Leaf(RParen)]) == tree by {
      assert [Leaf(LBrack), ta, Leaf(RParen)][1..] == kids;
    }
    BracketKeeps(kids, Comma);
    BracketKeeps(kids, Pipe);
    Stages("[" + a + ")", [Leaf(LBrack), ta, Leaf(RParen)], tree, tree, tree);
    assert Apply(kids) == [IdentType(a)];
  }

  /** The tokens of `[` followed by an identifier. */
  lemma OpenerLex(a: string)
    requires IsIdentifier(a)
    ensures Lex("[" + a) == [Leaf(LBrack), TypeToken(Ident, a, [])]
  {
    hide Lex, LexFrom, IsIdentifier;
    LexIdentifier(a);
    PunctIsNotIdentChar('[');
    assert "["[0] == '[';
    LexConcat("[", a);
    LexPunct('[');
  }

  /** A bracket node whose children are leaves without `op` passes the `op` stage unchanged. */
  lemma BracketKeeps(kids: seq<TypeToken>, op: Lexeme)
    requires op == Comma || op == Pipe
    requires forall k :: 0 <= k < |kids| ==> kids[k].children == [] && kids[k].lexeme != op
    ensures RegroupOp([Node(LBrack, kids)], op) == [Node(LBrack, kids)]
  {
    assert RegroupOp([], op) == [];
    RegroupKidsIsMap(kids, kids, op);
    assert NoOp(kids, op);
    assert RegroupOp(kids, op) == kids;
    RegroupOne(LBrack, kids, kids, op);
    assert NoOp([Node(LBrack, kids)], op);
  }

}
