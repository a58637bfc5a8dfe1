/**
 * The type-annotation grammar of the marker parser: the lexer, bracket
 * nesting, operator grouping on `,` and `|`, and the lowering of the token
 * tree to a list of type variants.
 *
 * The C code works on a linked list of `struct type_token` whose `next`,
 * `child` and `parent` pointers it rewrites in place.  Here a token list is a
 * `seq<TypeToken>` (the `next` chain) and a token's `child` chain is its
 * `children` field; the `parent` pointers of the bracket pass are the explicit
 * stack of open frames of `RegroupBrackets`.
 */
module TypeGrammar {
  import opened Wrappers
  import opened Strings

  /** `enum type_lexeme` without its NULL member, which never reaches a token. */
  datatype Lexeme = LParen | RParen | LBrack | RBrack | LBrace | RBrace
                  | LAngle | RAngle | Pipe | Comma | Bang | Star | Ident

  /** The enumerator's value in C, used by the "opener + 1 == closer" test. */
  function Ordinal(l: Lexeme): nat
  {
    match l
    case LParen => 1 case RParen => 2 case LBrack => 3 case RBrack => 4
    case LBrace => 5 case RBrace => 6 case LAngle => 7 case RAngle => 8
    case Pipe => 9 case Comma => 10 case Bang => 11 case Star => 12 case Ident => 13
  }

  predicate IsOpener(l: Lexeme) { l == LParen || l == LBrack || l == LBrace || l == LAngle }
  predicate IsCloser(l: Lexeme) { l == RParen || l == RBrack || l == RBrace || l == RAngle }

  /** A closer ends the group whose opener's enumerator is one below its own. */
  predicate Closes(open: Lexeme, close: Lexeme) { IsCloser(close) && Ordinal(open) + 1 == Ordinal(close) }

  /** `struct type_token`: `ident` is the empty string where C holds NULL. */
  datatype TypeToken = TypeToken(lexeme: Lexeme, ident: string, children: seq<TypeToken>)

  /** A typeset where it is itself a component: a function parameter or a return type. */
  datatype Typeset = Typeset(alts: seq<Type>)

  /** `struct type`, with the typeset lists as sequences. */
  datatype Type =
    | Nil
    | Any
    | Num
    | Str
    | List(elems: seq<Type>)
    | Hash(elems: seq<Type>)
    | Obj(className: string)
    | Func(params: seq<Typeset>, ret: Option<Typeset>)

  // ---------------------------------------------------------------------------
  // tokens_lex

  /** The single-character lexemes of the lexer's `switch`. */
  function PunctLexeme(c: char): Option<Lexeme>
  {
    match c
    case '(' => Some(LParen) case ')' => Some(RParen)
    case '[' => Some(LBrack) case ']' => Some(RBrack)
    case '{' => Some(LBrace) case '}' => Some(RBrace)
    case '<' => Some(LAngle) case '>' => Some(RAngle)
    case '|' => Some(Pipe)   case ',' => Some(Comma)
    case '!' => Some(Bang)   case '*' => Some(Star)
    case _ => None
  }

  predicate IsIdentStart(c: char) { IsAlpha(c) || c == '_' }
  predicate IsIdentChar(c: char) { IsAlnum(c) || c == '_' }

  /** `[A-Za-z_][A-Za-z0-9_]*` */
  predicate IsIdentifier(s: string)
  {
    |s| > 0 && IsIdentStart(s[0]) && forall k :: 0 < k < |s| ==> IsIdentChar(s[k])
  }

  /** The end of the identifier run that starts before `j`. */
  function IdentEnd(s: string, j: nat): (e: nat)
    requires j <= |s|
    ensures j <= e <= |s|
    ensures forall k :: j <= k < e ==> IsIdentChar(s[k])
    ensures e < |s| ==> !IsIdentChar(s[e])
    decreases |s| - j
  {
    if j == |s| || !IsIdentChar(s[j]) then j else IdentEnd(s, j + 1)
  }

  /** A token as the lexer emits it. */
  predicate Lexed(t: TypeToken)
  {
    && t.children == []
    && (t.lexeme == Ident ==> IsIdentifier(t.ident))
    && (t.lexeme != Ident ==> t.ident == "")
  }

  /** The tokens of `s` from index `i` on; the C loop stops at a NUL. */
  function LexFrom(s: string, i: nat): (r: seq<TypeToken>)
    requires i <= |s|
    ensures forall k :: 0 <= k < |r| ==> Lexed(r[k])
    decreases |s| - i
  {
    if i == |s| || s[i] == '\0' then []
    else if PunctLexeme(s[i]).Some? then [TypeToken(PunctLexeme(s[i]).value, "", [])] + LexFrom(s, i + 1)
    else if IsIdentStart(s[i]) then
      var e := IdentEnd(s, i + 1);
      [TypeToken(Ident, s[i..e], [])] + LexFrom(s, e)
    else LexFrom(s, i + 1)
  }

  function Lex(s: string): seq<TypeToken> { LexFrom(s, 0) }

  /** `tokens_lex`: one pass over the string, appending each token at the end of the list. */
  method TokensLex(atype: string) returns (toks: seq<TypeToken>)
    ensures toks == Lex(atype)
  {
    hide LexFrom;
    toks := [];
    var i := 0;
    while i < |atype| && atype[i] != '\0'
      invariant 0 <= i <= |atype|
      invariant toks + LexFrom(atype, i) == Lex(atype)
      decreases |atype| - i
    {
      toks, i := LexOne(atype, i, toks);
    }
    LexAtEnd(atype, i);
    assert toks + [] == toks;
  }

  /** One turn of the loop of `tokens_lex`: the token at `i`, if any, moves from what is left to `toks`. */
  method LexOne(atype: string, i: nat, toks: seq<TypeToken>) returns (toks': seq<TypeToken>, i': nat)
    requires i < |atype| && atype[i] != '\0'
    ensures i < i' <= |atype|
    ensures toks' + LexFrom(atype, i') == toks + LexFrom(atype, i)
  {
    hide LexFrom;
    var lexeme := PunctLexeme(atype[i]);
    if lexeme.Some? {
      LexAtPunct(atype, i, lexeme.value);
      ConcatAssoc(toks, [TypeToken(lexeme.value, "", [])], LexFrom(atype, i + 1));
      toks', i' := toks + [TypeToken(lexeme.value, "", [])], i + 1;
    } else if IsIdentStart(atype[i]) {
      i' := ScanIdent(atype, i + 1);
      LexAtIdent(atype, i, i');
      ConcatAssoc(toks, [TypeToken(Ident, atype[i..i'], [])], LexFrom(atype, i'));
      toks' := toks + [TypeToken(Ident, atype[i..i'], [])];
    } else {
      LexAtOther(atype, i);
      toks', i' := toks, i + 1;
    }
  }

  /** The inner scan of `tokens_lex`: past the identifier characters from `i` on. */
  method ScanIdent(s: string, i: nat) returns (e: nat)
    requires i <= |s|
    ensures e == IdentEnd(s, i)
  {
    e := i;
    while e < |s| && IsIdentChar(s[e])
      invariant i <= e <= |s|
      invariant IdentEnd(s, e) == IdentEnd(s, i)
      decreases |s| - e
    {
      e := e + 1;
    }
  }

  lemma LexAtPunct(s: string, i: nat, l: Lexeme)
    requires i < |s| && s[i] != '\0' && PunctLexeme(s[i]) == Some(l)
    ensures LexFrom(s, i) == [TypeToken(l, "", [])] + LexFrom(s, i + 1)
  {
  }

  lemma LexAtIdent(s: string, i: nat, e: nat)
    requires i < |s| && s[i] != '\0' && PunctLexeme(s[i]).None? && IsIdentStart(s[i])
    requires e == IdentEnd(s, i + 1)
    ensures LexFrom(s, i) == [TypeToken(Ident, s[i..e], [])] + LexFrom(s, e)
  {
  }

  lemma LexAtOther(s: string, i: nat)
    requires i < |s| && s[i] != '\0' && PunctLexeme(s[i]).None? && !IsIdentStart(s[i])
    ensures LexFrom(s, i) == LexFrom(s, i + 1)
  {
  }

  lemma LexAtEnd(s: string, i: nat)
    requires i <= |s| && (i == |s| || s[i] == '\0')
    ensures LexFrom(s, i) == []
  {
  }

  predicate NoNul(s: string) { forall k :: 0 <= k < |s| ==> s[k] != '\0' }

  /** Two strings whose junction cannot lie inside an identifier. */
  predicate Separated(a: string, b: string)
  {
    a == [] || b == [] || !IsIdentChar(a[|a| - 1]) || !IsIdentChar(b[0])
  }

  lemma {:induction false} IdentEndShift(p: string, q: string, j: nat)
    requires j <= |q|
    ensures IdentEnd(p + q, |p| + j) == |p| + IdentEnd(q, j)
    decreases |q| - j
  {
    if j < |q| {
      assert (p + q)[|p| + j] == q[j];
      if IsIdentChar(q[j]) {
        IdentEndShift(p, q, j + 1);
      }
    }
  }

  /** Lexing from inside the second half of a string only sees that half. */
  lemma {:induction false} LexFromShift(p: string, q: string, j: nat)
    requires j <= |q|
    ensures LexFrom(p + q, |p| + j) == LexFrom(q, j)
    decreases |q| - j, 1
  {
    hide LexFrom;
    var s := p + q;
    var k := |p| + j;
    if j < |q| {
      assert s[k] == q[j];
      if q[j] == '\0' {
        LexAtEnd(s, k);
        LexAtEnd(q, j);
      } else if PunctLexeme(q[j]).Some? {
        var l := PunctLexeme(q[j]).value;
        LexAtPunct(s, k, l);
        LexAtPunct(q, j, l);
        LexFromShift(p, q, j + 1);
      } else if IsIdentStart(q[j]) {
        LexFromShiftIdent(p, q, j);
      } else {
        LexAtOther(s, k);
        LexAtOther(q, j);
        LexFromShift(p, q, j + 1);
      }
    } else {
      LexAtEnd(s, k);
      LexAtEnd(q, j);
    }
  }

  lemma {:induction false} LexFromShiftIdent(p: string, q: string, j: nat)
    requires j < |q| && q[j] != '\0' && PunctLexeme(q[j]).None? && IsIdentStart(q[j])
    ensures LexFrom(p + q, |p| + j) == LexFrom(q, j)
    decreases |q| - j, 0
  {
    hide LexFrom;
    var s := p + q;
    var k := |p| + j;
    assert s[k] == q[j];
    IdentEndShift(p, q, j + 1);
    var e := IdentEnd(q, j + 1);
    LexAtIdent(s, k, |p| + e);
    LexAtIdent(q, j, e);
    SliceOfSecond(p, q, j, e);
    LexFromShift(p, q, e);
  }

  lemma {:induction false} IdentEndConcat(a: string, b: string, j: nat)
    requires 0 < j <= |a| && IsIdentChar(a[j - 1]) && Separated(a, b)
    ensures IdentEnd(a + b, j) == IdentEnd(a, j)
    decreases |a| - j
  {
    var s := a + b;
    if j < |a| {
      assert s[j] == a[j];
      if IsIdentChar(a[j]) {
        IdentEndConcat(a, b, j + 1);
      }
    } else if b != [] {
      assert s[j] == b[0];
    }
  }

  lemma {:induction false} LexFromConcat(a: string, b: string, i: nat)
    requires i <= |a| && NoNul(a) && Separated(a, b)
    ensures LexFrom(a + b, i) == LexFrom(a, i) + Lex(b)
    decreases |a| - i, 1
  {
    var s := a + b;
    if i == |a| {
      LexFromShift(a, b, 0);
      LexAtEnd(a, i);
      hide LexFrom;
      assert [] + Lex(b) == Lex(b);
    } else {
      assert s[i] == a[i] && a[i] != '\0';
      if PunctLexeme(a[i]).Some? {
        var l := PunctLexeme(a[i]).value;
        LexAtPunct(s, i, l);
        LexAtPunct(a, i, l);
        hide LexFrom;
        LexFromConcat(a, b, i + 1);
        ConcatAssoc([TypeToken(l, "", [])], LexFrom(a, i + 1), Lex(b));
      } else if IsIdentStart(a[i]) {
        LexFromConcatIdent(a, b, i);
      } else {
        LexAtOther(s, i);
        LexAtOther(a, i);
        hide LexFrom;
        LexFromConcat(a, b, i + 1);
      }
    }
  }

  lemma {:induction false} LexFromConcatIdent(a: string, b: string, i: nat)
    requires i < |a| && NoNul(a) && Separated(a, b)
    requires PunctLexeme(a[i]).None? && IsIdentStart(a[i])
    ensures LexFrom(a + b, i) == LexFrom(a, i) + Lex(b)
    decreases |a| - i, 0
  {
    var s := a + b;
    assert s[i] == a[i] && a[i] != '\0';
    IdentEndConcat(a, b, i + 1);
    var e := IdentEnd(a, i + 1);
    assert s[i..e] == a[i..e];
    LexAtIdent(s, i, e);
    LexAtIdent(a, i, e);
    hide LexFrom;
    LexFromConcat(a, b, e);
    ConcatAssoc([TypeToken(Ident, a[i..e], [])], LexFrom(a, e), Lex(b));
  }

  lemma PunctIsNotIdentChar(c: char)
    requires PunctLexeme(c).Some?
    ensures !IsIdentChar(c) && c != '\0'
  {
  }

  /** The lexer is a homomorphism over junctions that cannot join two identifier characters. */
  lemma LexConcat(a: string, b: string)
    requires NoNul(a) && Separated(a, b)
    ensures Lex(a + b) == Lex(a) + Lex(b)
  {
    LexFromConcat(a, b, 0);
  }

  lemma {:induction false} IdentEndRun(s: string, j: nat)
    requires 0 < j <= |s| && forall k :: 0 < k < |s| ==> IsIdentChar(s[k])
    ensures IdentEnd(s, j) == |s|
    decreases |s| - j
  {
    if j < |s| {
      IdentEndRun(s, j + 1);
    }
  }

  /** An identifier lexes to one identifier token. */
  lemma LexIdentifier(name: string)
    requires IsIdentifier(name)
    ensures Lex(name) == [TypeToken(Ident, name, [])]
    ensures NoNul(name)
  {
    IdentEndRun(name, 1);
    assert name[0..|name|] == name;
    if PunctLexeme(name[0]).Some? {
      PunctIsNotIdentChar(name[0]);
    }
    assert LexFrom(name, |name|) == [];
  }

  /** A punctuation character lexes to its one token. */
  lemma LexPunct(c: char)
    requires PunctLexeme(c).Some?
    ensures Lex([c]) == [TypeToken(PunctLexeme(c).value, "", [])]
  {
    PunctIsNotIdentChar(c);
    assert [c][0] == c;
    assert LexFrom([c], 1) == [];
  }

  // ---------------------------------------------------------------------------
  // tokens_regroup_brackets

  /**
   * What a group yields: `nodes` up to its closer, the `rest` after the closer,
   * and whether a closer was found.
   */
  datatype Grouped = Grouped(nodes: seq<TypeToken>, rest: seq<TypeToken>, closed: bool)

  /**
   * The bracket nesting as recursive descent, the reference against which the
   * pointer-rewriting pass is proved.  `open` is the lexeme of the innermost
   * open delimiter, `None` at the top level.  An opener takes the tokens up to
   * its matching closer as children (all remaining tokens when there is none);
   * a closer that does not match `open` stays where it is, as a plain token.
   */
  function Group(toks: seq<TypeToken>, open: Option<Lexeme>): (g: Grouped)
    ensures |g.rest| <= |toks|
    ensures g.closed ==> |g.rest| < |toks|
    ensures !g.closed ==> g.rest == []
    decreases |toks|
  {
    if toks == [] then Grouped([], [], false)
    else
      var t := toks[0];
      if IsOpener(t.lexeme) then
        var inner := Group(toks[1..], Some(t.lexeme));
        var node := TypeToken(t.lexeme, t.ident, inner.nodes);
        if inner.closed then
          var after := Group(inner.rest, open);
          Grouped([node] + after.nodes, after.rest, after.closed)
        else Grouped([node], [], false)
      else if open.Some? && Closes(open.value, t.lexeme) then Grouped([], toks[1..], true)
      else
        var after := Group(toks[1..], open);
        Grouped([t] + after.nodes, after.rest, after.closed)
  }

  function Brackets(toks: seq<TypeToken>): seq<TypeToken> { Group(toks, None).nodes }

  /**
   * One level of the bracket pass's parent chain: the opener that started it
   * (`None` for the top level) and the children gathered so far.
   */
  datatype Frame = Frame(opener: Option<TypeToken>, kids: seq<TypeToken>)

  /** The bottom frame is the top level; every other frame was opened by a token. */
  predicate WellStack(stack: seq<Frame>)
  {
    && |stack| >= 1
    && stack[0].opener.None?
    && forall k :: 0 < k < |stack| ==> stack[k].opener.Some?
  }

  function OpenLexeme(f: Frame): Option<Lexeme>
  {
    if f.opener.None? then None else Some(f.opener.value.lexeme)
  }

  /** The token an open frame becomes once its group ends. */
  function CloseFrame(f: Frame, more: seq<TypeToken>): TypeToken
    requires f.opener.Some?
  {
    TypeToken(f.opener.value.lexeme, f.opener.value.ident, f.kids + more)
  }

  /** Appends `node` to the children of the innermost frame. */
  function AddKid(stack: seq<Frame>, node: TypeToken): (r: seq<Frame>)
    requires |stack| >= 1
    ensures |r| == |stack|
    ensures forall k :: 0 <= k < |r| ==> r[k].opener == stack[k].opener
  {
    var top := stack[|stack| - 1];
    stack[..|stack| - 1] + [Frame(top.opener, top.kids + [node])]
  }

  /**
   * What the stack machine produces from `stack` and the remaining `toks`,
   * stated through the reference: the innermost frame takes the group that
   * `toks` yields for it, and the frame below resumes on what is left.
   */
  function Resume(stack: seq<Frame>, toks: seq<TypeToken>): seq<TypeToken>
    requires WellStack(stack)
    decreases |stack|
  {
    var top := stack[|stack| - 1];
    var g := Group(toks, OpenLexeme(top));
    if |stack| == 1 then top.kids + g.nodes
    else Resume(AddKid(stack[..|stack| - 1], CloseFrame(top, g.nodes)), g.rest)
  }

  /** One iteration of the bracket pass's loop. */
  function Step(stack: seq<Frame>, t: TypeToken): (r: seq<Frame>)
    requires WellStack(stack)
    ensures WellStack(r)
  {
    var top := stack[|stack| - 1];
    if IsOpener(t.lexeme) then stack + [Frame(Some(TypeToken(t.lexeme, t.ident, [])), [])]
    else if |stack| > 1 && Closes(top.opener.value.lexeme, t.lexeme) then
      AddKid(stack[..|stack| - 1], CloseFrame(top, []))
    else AddKid(stack, t)
  }

  /** Resuming after appending a finished node to the innermost frame. */
  lemma {:induction false} ResumeAddKid(stack: seq<Frame>, node: TypeToken, toks: seq<TypeToken>)
    requires WellStack(stack)
    ensures WellStack(AddKid(stack, node))
    ensures var top := stack[|stack| - 1];
            var g := Group(toks, OpenLexeme(top));
            Resume(AddKid(stack, node), toks) ==
              if |stack| == 1 then top.kids + ([node] + g.nodes)
              else Resume(AddKid(stack[..|stack| - 1], CloseFrame(top, [node] + g.nodes)), g.rest)
  {
    var n, top := |stack|, stack[|stack| - 1];
    AddKidTop(stack, node);
    var g := Group(toks, OpenLexeme(top));
    if n > 1 {
      ResumeAddKidInner(stack, node, toks, AddKid(stack, node), stack[..n - 1], top, g);
    } else {
      ResumeAddKidBottom(stack, node, toks, AddKid(stack, node), top, g);
    }
  }

  lemma ResumeAddKidInner(stack: seq<Frame>, node: TypeToken, toks: seq<TypeToken>,
                          added: seq<Frame>, below: seq<Frame>, top: Frame, g: Grouped)
    requires WellStack(stack) && |stack| > 1
    requires top == stack[|stack| - 1] && below == stack[..|stack| - 1] && added == AddKid(stack, node)
    requires g == Group(toks, OpenLexeme(top))
    ensures WellStack(AddKid(below, CloseFrame(top, [node] + g.nodes)))
    ensures Resume(added, toks) == Resume(AddKid(below, CloseFrame(top, [node] + g.nodes)), g.rest)
  {
    var n := |stack|;
    AddKidTop(stack, node);
    ResumeUnfold(added, toks);
    assert Group(toks, OpenLexeme(added[n - 1])) == g;
    hide Resume, Group;
    var closed := CloseFrame(top, [node] + g.nodes);
    ConcatAssoc(top.kids, [node], g.nodes);
    assert CloseFrame(added[n - 1], g.nodes) == closed;
    assert added[..n - 1] == below;
  }

  lemma ResumeAddKidBottom(stack: seq<Frame>, node: TypeToken, toks: seq<TypeToken>,
                           added: seq<Frame>, top: Frame, g: Grouped)
    requires WellStack(stack) && |stack| == 1
    requires top == stack[0] && added == AddKid(stack, node)
    requires g == Group(toks, OpenLexeme(top))
    ensures Resume(added, toks) == top.kids + ([node] + g.nodes)
  {
    AddKidTop(stack, node);
    ResumeUnfold(added, toks);
    assert Group(toks, OpenLexeme(added[0])) == g;
    hide Resume, Group;
    assert Resume(added, toks) == added[0].kids + g.nodes;
    ConcatAssoc(top.kids, [node], g.nodes);
  }

  /** Appending to the innermost frame leaves the frames below and every opener alone. */
  lemma AddKidTop(stack: seq<Frame>, node: TypeToken)
    requires WellStack(stack)
    ensures var n, top, added := |stack|, stack[|stack| - 1], AddKid(stack, node);
      && WellStack(added)
      && added[n - 1] == Frame(top.opener, top.kids + [node])
      && added[..n - 1] == stack[..n - 1]
      && OpenLexeme(added[n - 1]) == OpenLexeme(top)
  {
  }

  /** One unfolding of `Resume`. */
  lemma ResumeUnfold(stack: seq<Frame>, toks: seq<TypeToken>)
    requires WellStack(stack)
    ensures var top := stack[|stack| - 1];
            var g := Group(toks, OpenLexeme(top));
            Resume(stack, toks) ==
              if |stack| == 1 then top.kids + g.nodes
              else Resume(AddKid(stack[..|stack| - 1], CloseFrame(top, g.nodes)), g.rest)
  {
  }

  lemma {:induction false} StepResumeOpener(stack: seq<Frame>, toks: seq<TypeToken>)
    requires WellStack(stack) && |toks| > 0 && IsOpener(toks[0].lexeme)
    ensures Resume(Step(stack, toks[0]), toks[1..]) == Resume(stack, toks)
  {
    var t, top := toks[0], stack[|stack| - 1];
    var inner := Group(toks[1..], Some(t.lexeme));
    var node := TypeToken(t.lexeme, t.ident, inner.nodes);
    ResumePushed(stack, t, toks[1..], Step(stack, t), inner, node);
    ResumeAddKid(stack, node, inner.rest);
    GroupAtOpener(toks, OpenLexeme(top), inner, node);
    ResumeUnfold(stack, toks);
  }

  /** Resuming after pushing an opener: its group closes into a node of the frame below. */
  lemma ResumePushed(stack: seq<Frame>, t: TypeToken, rest: seq<TypeToken>,
                     pushed: seq<Frame>, inner: Grouped, node: TypeToken)
    requires WellStack(stack) && IsOpener(t.lexeme) && pushed == Step(stack, t)
    requires inner == Group(rest, Some(t.lexeme)) && node == TypeToken(t.lexeme, t.ident, inner.nodes)
    ensures Resume(pushed, rest) == Resume(AddKid(stack, node), inner.rest)
  {
    var n := |stack|;
    assert pushed[..n] == stack;
    assert CloseFrame(pushed[n], inner.nodes) == node;
    ResumeUnfold(pushed, rest);
  }

  /** The group of a level that starts with an opener: its node, then the rest of the level. */
  lemma GroupAtOpener(toks: seq<TypeToken>, open: Option<Lexeme>, inner: Grouped, node: TypeToken)
    requires |toks| > 0 && IsOpener(toks[0].lexeme)
    requires inner == Group(toks[1..], Some(toks[0].lexeme))
    requires node == TypeToken(toks[0].lexeme, toks[0].ident, inner.nodes)
    ensures var after := Group(inner.rest, open);
            Group(toks, open) == Grouped([node] + after.nodes, after.rest, after.closed)
  {
    if !inner.closed {
      assert Group(inner.rest, open) == Grouped([], [], false);
    }
  }

  lemma {:induction false} StepResumeOther(stack: seq<Frame>, toks: seq<TypeToken>)
    requires WellStack(stack) && |toks| > 0 && !IsOpener(toks[0].lexeme)
    requires !(|stack| > 1 && Closes(stack[|stack| - 1].opener.value.lexeme, toks[0].lexeme))
    ensures Resume(Step(stack, toks[0]), toks[1..]) == Resume(stack, toks)
  {
    ResumeAddKid(stack, toks[0], toks[1..]);
  }

  /** One step of the machine leaves what is still to come unchanged. */
  lemma {:induction false} StepResume(stack: seq<Frame>, toks: seq<TypeToken>)
    requires WellStack(stack) && |toks| > 0
    ensures Resume(Step(stack, toks[0]), toks[1..]) == Resume(stack, toks)
  {
    if IsOpener(toks[0].lexeme) {
      StepResumeOpener(stack, toks);
    } else if |stack| > 1 && Closes(stack[|stack| - 1].opener.value.lexeme, toks[0].lexeme) {
    } else {
      StepResumeOther(stack, toks);
    }
  }

  /**
   * `tokens_regroup_brackets`: a single pass over the token list keeping the
   * chain of open delimiters; groups still open at the end of the input take
   * every token after their opener.
   */
  method RegroupBrackets(toks: seq<TypeToken>) returns (r: seq<TypeToken>)
    ensures r == Brackets(toks)
  {
    var stack := [Frame(None, [])];
    var i := 0;
    while i < |toks|
      invariant 0 <= i <= |toks| && WellStack(stack)
      invariant Resume(stack, toks[i..]) == Brackets(toks)
    {
      StepResume(stack, toks[i..]);
      assert toks[i..][1..] == toks[i + 1..];
      stack := Step(stack, toks[i]);
      i := i + 1;
    }
    while |stack| > 1
      invariant WellStack(stack)
      invariant Resume(stack, []) == Brackets(toks)
      decreases |stack|
    {
      var top := stack[|stack| - 1];
      stack := AddKid(stack[..|stack| - 1], CloseFrame(top, []));
    }
    r := stack[0].kids;
  }

  // ---------------------------------------------------------------------------
  // tokens_regroup_op

  predicate NoOp(level: seq<TypeToken>, op: Lexeme)
  {
    forall k :: 0 <= k < |level| ==> level[k].lexeme != op
  }

  lemma NoOpSnoc(level: seq<TypeToken>, k: nat, op: Lexeme)
    requires k < |level|
    ensures NoOp(level[..k + 1], op) <==> NoOp(level[..k], op) && level[k].lexeme != op
  {
    assert level[..k + 1] == level[..k] + [level[k]];
  }

  /**
   * A level cut at its `op` tokens: the piece before the first separator, and
   * each separator with the piece that follows it.
   */
  datatype Pieces = Pieces(first: seq<TypeToken>, seps: seq<TypeToken>, after: seq<seq<TypeToken>>)

  predicate WellCut(p: Pieces, op: Lexeme)
  {
    && |p.seps| == |p.after|
    && NoOp(p.first, op)
    && forall k :: 0 <= k < |p.seps| ==> p.seps[k].lexeme == op && NoOp(p.after[k], op)
  }

  function Split(level: seq<TypeToken>, op: Lexeme): (p: Pieces)
    ensures WellCut(p, op)
  {
    if level == [] then Pieces([], [], [])
    else
      var p := Split(level[1..], op);
      if level[0].lexeme == op then Pieces([], [level[0]] + p.seps, [p.first] + p.after)
      else Pieces([level[0]] + p.first, p.seps, p.after)
  }

  /** The level that the pieces were cut from. */
  function Join(p: Pieces): seq<TypeToken>
    requires |p.seps| == |p.after|
  {
    p.first + JoinTail(p.seps, p.after)
  }

  function JoinTail(seps: seq<TypeToken>, after: seq<seq<TypeToken>>): seq<TypeToken>
    requires |seps| == |after|
  {
    if seps == [] then [] else [seps[0]] + after[0] + JoinTail(seps[1..], after[1..])
  }

  /** Cutting a level and joining the pieces gives the level back. */
  lemma {:induction false} JoinSplit(level: seq<TypeToken>, op: Lexeme)
    ensures Join(Split(level, op)) == level
  {
    if level != [] {
      JoinSplit(level[1..], op);
      var p := Split(level[1..], op);
      if level[0].lexeme == op {
        assert [level[0]] + p.seps == [level[0]] + p.seps;
        assert ([level[0]] + p.seps)[1..] == p.seps && ([p.first] + p.after)[1..] == p.after;
        assert level == [level[0]] + level[1..];
      } else {
        assert level == [level[0]] + level[1..];
      }
    }
  }

  /** ... and well-cut pieces are what cutting their join gives. */
  lemma {:induction false} SplitJoin(p: Pieces, op: Lexeme)
    requires WellCut(p, op)
    ensures Split(Join(p), op) == p
    decreases |p.first| + |JoinTail(p.seps, p.after)|
  {
    if p.first != [] {
      var q := Pieces(p.first[1..], p.seps, p.after);
      CutFirst(p, q, op);
      SplitJoin(q, op);
      SplitJoinFirst(p, q, op);
    } else if p.seps != [] {
      var q := Pieces(p.after[0], p.seps[1..], p.after[1..]);
      CutSep(p, q, op);
      SplitJoin(q, op);
      SplitJoinSep(p, q, op);
    }
  }

  /** Pieces whose first piece lost its first token are still well cut, and shorter. */
  lemma CutFirst(p: Pieces, q: Pieces, op: Lexeme)
    requires WellCut(p, op) && p.first != [] && q == Pieces(p.first[1..], p.seps, p.after)
    ensures WellCut(q, op) && |q.first| + |JoinTail(q.seps, q.after)| < |p.first| + |JoinTail(p.seps, p.after)|
  {
    hide JoinTail;
    forall k | 0 <= k < |q.first| ensures q.first[k].lexeme != op {
      assert q.first[k] == p.first[k + 1];
    }
  }

  /** Pieces whose first separator is dropped, its piece becoming the first, are still well cut, and shorter. */
  lemma CutSep(p: Pieces, q: Pieces, op: Lexeme)
    requires WellCut(p, op) && p.seps != [] && q == Pieces(p.after[0], p.seps[1..], p.after[1..])
    ensures WellCut(q, op) && |q.first| + |JoinTail(q.seps, q.after)| < |p.first| + |JoinTail(p.seps, p.after)|
  {
    assert JoinTail(p.seps, p.after) == [p.seps[0]] + p.after[0] + JoinTail(q.seps, q.after);
    hide JoinTail;
    assert NoOp(p.after[0], op);
    forall k | 0 <= k < |q.seps| ensures q.seps[k].lexeme == op && NoOp(q.after[k], op) {
      assert q.seps[k] == p.seps[k + 1] && q.after[k] == p.after[k + 1];
    }
  }

  /** The first token of the first piece is not `op`: cutting keeps it in front. */
  lemma SplitJoinFirst(p: Pieces, q: Pieces, op: Lexeme)
    requires WellCut(p, op) && p.first != [] && q == Pieces(p.first[1..], p.seps, p.after)
    requires WellCut(q, op) && Split(Join(q), op) == q
    ensures Split(Join(p), op) == p
  {
    var level := Join(p);
    var t := p.first[0];
    assert level == [t] + Join(q);
    assert level[1..] == Join(q);
    assert t.lexeme != op;
    assert [t] + p.first[1..] == p.first;
  }

  /** The first piece is empty: cutting starts with the first separator. */
  lemma SplitJoinSep(p: Pieces, q: Pieces, op: Lexeme)
    requires WellCut(p, op) && p.first == [] && p.seps != [] && q == Pieces(p.after[0], p.seps[1..], p.after[1..])
    requires WellCut(q, op) && Split(Join(q), op) == q
    ensures Split(Join(p), op) == p
  {
    var level := Join(p);
    assert level == [p.seps[0]] + Join(q);
    assert level[1..] == Join(q);
    assert p.seps[0].lexeme == op;
    assert [p.seps[0]] + p.seps[1..] == p.seps;
    assert [p.after[0]] + p.after[1..] == p.after;
  }

  /**
   * The group a separator heads: it takes the piece after it as its children,
   * and keeps its own children when that piece is empty.
   */
  function Piece(head: TypeToken, kids: seq<TypeToken>): TypeToken
  {
    if kids == [] then head else TypeToken(head.lexeme, head.ident, kids)
  }

  /**
   * One level of `tokens_regroup_op` after its children are done: unchanged
   * without an `op` token; otherwise a fresh `op` token holding the first piece,
   * followed by every separator holding the piece after it.
   */
  function GroupLevel(level: seq<TypeToken>, op: Lexeme): seq<TypeToken>
  {
    if NoOp(level, op) then level
    else
      var p := Split(level, op);
      [Piece(TypeToken(op, "", []), p.first)] + Heads(p.seps, p.after)
  }

  function Heads(seps: seq<TypeToken>, after: seq<seq<TypeToken>>): (r: seq<TypeToken>)
    requires |seps| == |after|
    ensures |r| == |seps|
    ensures forall k :: 0 <= k < |r| ==> r[k] == Piece(seps[k], after[k])
  {
    if seps == [] then [] else [Piece(seps[0], after[0])] + Heads(seps[1..], after[1..])
  }

  /** `tokens_regroup_op` on a whole tree: every level, innermost first. */
  function RegroupOp(level: seq<TypeToken>, op: Lexeme): seq<TypeToken>
    decreases level, 1
  {
    GroupLevel(RegroupKids(level, op), op)
  }

  /** The level with each token's children regrouped. */
  function RegroupKids(level: seq<TypeToken>, op: Lexeme): (r: seq<TypeToken>)
    ensures |r| == |level|
    ensures forall k :: 0 <= k < |r| ==> r[k].lexeme == level[k].lexeme
    decreases level, 0
  {
    if level == [] then []
    else [TypeToken(level[0].lexeme, level[0].ident, RegroupOp(level[0].children, op))] + RegroupKids(level[1..], op)
  }

  /** A token with its children regrouped. */
  function Regrouped(t: TypeToken, op: Lexeme): TypeToken
  {
    TypeToken(t.lexeme, t.ident, RegroupOp(t.children, op))
  }

  lemma {:induction false} RegroupKidsIsMap(level: seq<TypeToken>, mapped: seq<TypeToken>, op: Lexeme)
    requires |mapped| == |level|
    requires forall j :: 0 <= j < |level| ==> mapped[j] == Regrouped(level[j], op)
    ensures RegroupKids(level, op) == mapped
  {
    if level != [] {
      RegroupKidsIsMap(level[1..], mapped[1..], op);
      assert mapped == [mapped[0]] + mapped[1..];
    }
  }

  /** The groups still to be emitted: `group` has gathered `kids` and `rest` remains. */
  function PendingGroups(group: TypeToken, kids: seq<TypeToken>, rest: seq<TypeToken>, op: Lexeme): seq<TypeToken>
  {
    var p := Split(rest, op);
    [Piece(group, kids + p.first)] + Heads(p.seps, p.after)
  }

  lemma PendingGroupsStep(group: TypeToken, kids: seq<TypeToken>, rest: seq<TypeToken>, op: Lexeme)
    requires rest != []
    ensures PendingGroups(group, kids, rest, op) ==
      if rest[0].lexeme == op then [Piece(group, kids)] + PendingGroups(rest[0], [], rest[1..], op)
      else PendingGroups(group, kids + [rest[0]], rest[1..], op)
  {
    var p := Split(rest[1..], op);
    if rest[0].lexeme == op {
      assert kids + [] == kids && [] + p.first == p.first;
      assert ([rest[0]] + p.seps)[1..] == p.seps && ([p.first] + p.after)[1..] == p.after;
    } else {
      assert kids + ([rest[0]] + p.first) == kids + [rest[0]] + p.first;
    }
  }

  /**
   * `tokens_regroup_op`: recurses into every child list, then, if the level
   * holds an `op` token, rebuilds it as a chain of `op` groups.
   */
  method RegroupOpLevel(level: seq<TypeToken>, op: Lexeme) returns (r: seq<TypeToken>)
    ensures r == RegroupOp(level, op)
    decreases level, 1
  {
    var mapped, hasOp := RegroupChildren(level, op);
    if !hasOp {
      return mapped;
    }
    r := GroupAtOp(mapped, op);
  }

  /** The first loop of `tokens_regroup_op`: regroups every child list and notes whether `op` occurs. */
  method RegroupChildren(level: seq<TypeToken>, op: Lexeme) returns (mapped: seq<TypeToken>, hasOp: bool)
    ensures mapped == RegroupKids(level, op)
    ensures hasOp <==> !NoOp(level, op)
    decreases level, 0
  {
    mapped := [];
    hasOp := false;
    var k := 0;
    while k < |level|
      invariant 0 <= k <= |level| && |mapped| == k
      invariant forall j :: 0 <= j < k ==> mapped[j] == Regrouped(level[j], op)
      invariant hasOp <==> !NoOp(level[..k], op)
    {
      var tok := level[k];
      var kids := RegroupOpLevel(tok.children, op);
      mapped := mapped + [TypeToken(tok.lexeme, tok.ident, kids)];
      hasOp := hasOp || tok.lexeme == op;
      NoOpSnoc(level, k, op);
      k := k + 1;
    }
    assert level[..k] == level;
    RegroupKidsIsMap(level, mapped, op);
  }

  /** The second loop of `tokens_regroup_op`: cuts a level holding `op` into a chain of `op` groups. */
  method GroupAtOp(mapped: seq<TypeToken>, op: Lexeme) returns (r: seq<TypeToken>)
    requires !NoOp(mapped, op)
    ensures r == GroupLevel(mapped, op)
  {
    PendingStart(mapped, op);
    hide PendingGroups, GroupLevel;
    var out: seq<TypeToken> := [];
    var group := TypeToken(op, "", []);
    var kids: seq<TypeToken> := [];
    var k := 0;
    while k < |mapped|
      invariant 0 <= k <= |mapped|
      invariant out + PendingGroups(group, kids, mapped[k..], op) == GroupLevel(mapped, op)
    {
      PendingGroupsStep(group, kids, mapped[k..], op);
      assert mapped[k..][1..] == mapped[k + 1..];
      if mapped[k].lexeme == op {
        ConcatAssoc(out, [Piece(group, kids)], PendingGroups(mapped[k], [], mapped[k + 1..], op));
        out := out + [Piece(group, kids)];
        group := mapped[k];
        kids := [];
      } else {
        kids := kids + [mapped[k]];
      }
      k := k + 1;
    }
    PendingEnd(group, kids, op);
    r := out + [Piece(group, kids)];
  }

  /** Before the loop, every group is still pending. */
  lemma PendingStart(level: seq<TypeToken>, op: Lexeme)
    requires !NoOp(level, op)
    ensures PendingGroups(TypeToken(op, "", []), [], level, op) == GroupLevel(level, op)
  {
    assert [] + Split(level, op).first == Split(level, op).first;
  }

  /** After the loop, only the group being gathered is pending. */
  lemma PendingEnd(group: TypeToken, kids: seq<TypeToken>, op: Lexeme)
    ensures PendingGroups(group, kids, [], op) == [Piece(group, kids)]
  {
    assert kids + [] == kids;
  }

  // ---------------------------------------------------------------------------
  // tokens_apply

  /** The variant an identifier names; the comparison is case-sensitive. */
  function IdentType(name: string): (t: Type)
    ensures t.Obj? <==> name !in {"nil", "any", "num", "str"}
    ensures t.Obj? ==> t.className == name
  {
    if name == "nil" then Nil
    else if name == "any" then Any
    else if name == "num" then Num
    else if name == "str" then Str
    else Obj(name)
  }

  /**
   * The variants a token list lowers to.  Only its head token is consulted,
   * except for a `|` level, where every group contributes, and for `<...>`,
   * which needs a `(...)` right after it.
   */
  function Apply(level: seq<TypeToken>): seq<Type>
    decreases level, 1
  {
    if level == [] then []
    else
      var t := level[0];
      match t.lexeme
      case Pipe => ApplyEach(level)
      case LAngle =>
        if |level| >= 2 && level[1].lexeme == LParen then
          [Func(ParamSets(level[1].children), Some(Typeset(Apply(t.children))))]
        else []
      case LParen => [Func(ParamSets(t.children), None)]
      case LBrack => [List(Apply(t.children))]
      case LBrace => [Hash(Apply(t.children))]
      case Bang => [Nil]
      case Star => [Any]
      case Ident => [IdentType(t.ident)]
      case _ => []
  }

  /** The variants of every group's children, in order. */
  function ApplyEach(groups: seq<TypeToken>): seq<Type>
    decreases groups, 0
  {
    if groups == [] then [] else Apply(groups[0].children) + ApplyEach(groups[1..])
  }

  /** The parameter typesets of a `(...)` group: one per `,` group, or one for the whole list. */
  function ParamSets(kids: seq<TypeToken>): seq<Typeset>
    decreases kids, 2
  {
    if kids == [] then []
    else if kids[0].lexeme == Comma then CommaSets(kids)
    else [Typeset(Apply(kids))]
  }

  function CommaSets(groups: seq<TypeToken>): (r: seq<Typeset>)
    ensures |r| == |groups|
    decreases groups, 0
  {
    if groups == [] then [] else [Typeset(Apply(groups[0].children))] + CommaSets(groups[1..])
  }

  /** `tokens_apply`: appends the variants of `level` to the caller's typeset. */
  method TokensApply(level: seq<TypeToken>, typeset: seq<Type>) returns (r: seq<Type>)
    ensures r == typeset + Apply(level)
    decreases level, 1
  {
    if level == [] {
      assert typeset + [] == typeset;
      return typeset;
    }
    var tok := level[0];
    match tok.lexeme
    case Pipe =>
      r := ApplyGroups(level, typeset);
    case LAngle =>
      if |level| >= 2 && level[1].lexeme == LParen {
        var ret := TokensApply(tok.children, []);
        assert [] + Apply(tok.children) == Apply(tok.children);
        var params := ParamTypesets(level[1].children);
        r := typeset + [Func(params, Some(Typeset(ret)))];
      } else {
        assert typeset + [] == typeset;
        r := typeset;
      }
    case LParen =>
      var params := ParamTypesets(tok.children);
      r := typeset + [Func(params, None)];
    case LBrack =>
      var sub := TokensApply(tok.children, []);
      assert [] + Apply(tok.children) == Apply(tok.children);
      r := typeset + [List(sub)];
    case LBrace =>
      var sub := TokensApply(tok.children, []);
      assert [] + Apply(tok.children) == Apply(tok.children);
      r := typeset + [Hash(sub)];
    case Bang => r := typeset + [Nil];
    case Star => r := typeset + [Any];
    case Ident => r := typeset + [IdentType(tok.ident)];
    case _ =>
      assert typeset + [] == typeset;
      r := typeset;
  }

  /** The `|` branch of `tokens_apply`: every group's children, in order. */
  method ApplyGroups(groups: seq<TypeToken>, typeset: seq<Type>) returns (r: seq<Type>)
    ensures r == typeset + ApplyEach(groups)
    decreases groups, 0
  {
    r := typeset;
    var k := 0;
    assert groups[k..] == groups;
    while k < |groups|
      invariant 0 <= k <= |groups|
      invariant r + ApplyEach(groups[k..]) == typeset + ApplyEach(groups)
    {
      assert groups[k..][0] == groups[k] && groups[k..][1..] == groups[k + 1..];
      var group := groups[k];
      r := TokensApply(group.children, r);
      k := k + 1;
    }
    assert groups[k..] == [] && r + [] == r;
  }

  /** The `(...)` branch of `tokens_apply`: the list of parameter typesets. */
  method ParamTypesets(kids: seq<TypeToken>) returns (r: seq<Typeset>)
    ensures r == ParamSets(kids)
    decreases kids, 2
  {
    r := [];
    if kids != [] {
      if kids[0].lexeme == Comma {
        var k := 0;
        assert kids[k..] == kids;
        hide ParamSets, CommaSets, Apply;
        while k < |kids|
          invariant 0 <= k <= |kids|
          invariant r + CommaSets(kids[k..]) == ParamSets(kids)
        {
          var group := kids[k];
          var param := TokensApply(group.children, []);
          CommaSetsAt(kids, k, r, param);
          r := r + [Typeset(param)];
          k := k + 1;
        }
        CommaSetsEnd(kids, k, r);
      } else {
        var param := TokensApply(kids, []);
        assert [] + Apply(kids) == Apply(kids);
        r := [Typeset(param)];
      }
    }
  }

  /** One more comma group moves from the pending sets to the built ones. */
  lemma CommaSetsAt(kids: seq<TypeToken>, k: nat, r: seq<Typeset>, param: seq<Type>)
    requires k < |kids| && param == [] + Apply(kids[k].children)
    ensures r + CommaSets(kids[k..]) == (r + [Typeset(param)]) + CommaSets(kids[k + 1..])
  {
    assert kids[k..][0] == kids[k] && kids[k..][1..] == kids[k + 1..];
    assert [] + Apply(kids[k].children) == Apply(kids[k].children);
  }

  lemma CommaSetsEnd(kids: seq<TypeToken>, k: nat, r: seq<Typeset>)
    requires k == |kids|
    ensures r + CommaSets(kids[k..]) == r
  {
    assert kids[k..] == [] && r + [] == r;
  }

  // ---------------------------------------------------------------------------
  // parse_type

  /** The variants an annotation denotes: lex, nest brackets, group on `,`, then on `|`, lower. */
  function ParseType(atype: string): seq<Type>
  {
    Apply(RegroupOp(RegroupOp(Brackets(Lex(atype)), Comma), Pipe))
  }

  /**
   * `parse_type`: the typeset is created when absent and the annotation's
   * variants are appended to it.
   */
  method ParseTypeInto(atype: string, typeset: Option<seq<Type>>) returns (r: seq<Type>)
    ensures r == typeset.GetOr([]) + ParseType(atype)
  {
    var toks := TokensLex(atype);
    toks := RegroupBrackets(toks);
    toks := RegroupOpLevel(toks, Comma);
    toks := RegroupOpLevel(toks, Pipe);
    r := TokensApply(toks, typeset.GetOr([]));
  }
}
