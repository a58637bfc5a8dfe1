/**
 * Properties of the tree walkers of src/parse.c: what one `process_item`
 * appends, and reference definitions of the comma-chain and statement
 * walks as folds over flat sequences of elements.
 */
module ParseWalk {
  import opened Wrappers
  import opened Marker
  import opened Parse

  // ---------------------------------------------------------------------------
  // One binding

  /** The flags `process_item` decides by, for the binding declared on 1-based line `line`. */
  function MarkersAt(src: Source, line: int): MarkerState
  {
    Resolve(ScanDirectives(src.text, src.lines, line - 2, NoMarkers()))
  }

  /** The description `process_item` attaches to that binding. */
  function DescAt(src: Source, line: int): string
  {
    ScanDesc(src.text, src.lines, line - 2, "").desc
  }

  /** An object literal marked as a module, where modules may nest, becomes a module. */
  predicate BecomesModule(m: MarkerState, rhs: Token, nest: bool)
  {
    Is(rhs, LCurlKind) && !m.flags.fVar && m.flags.fModule && nest
  }

  /** A hidden binding leaves both lists as they were. */
  lemma HiddenSkipped(src: Source, line: int, name: string, rhs: Token, nest: bool, acc: Lists)
    requires Indexed(src.text, src.lines)
    requires Hidden(MarkersAt(src, line), name)
    ensures ProcessItemF(src, line, name, rhs, nest, acc) == acc
  {
  }

  /**
   * A documented object literal marked `@module` becomes one new module,
   * carrying the binding's file, line, name and description, whose lists are
   * what walking the literal with nesting allowed gives.
   */
  lemma ModuleEntry(src: Source, line: int, name: string, rhs: Token, nest: bool, acc: Lists)
    requires Indexed(src.text, src.lines)
    requires !Hidden(MarkersAt(src, line), name) && BecomesModule(MarkersAt(src, line), rhs, nest)
    ensures var r := ProcessItemF(src, line, name, rhs, nest, acc);
      r.items == acc.items
      && |r.children| == |acc.children| + 1
      && r.children[..|acc.children|] == acc.children
      && var md := r.children[|acc.children|];
         md.filename == Some(src.fileName) && md.line == Some(line) && md.name == name
         && md.desc == Some(DescAt(src, line))
         && Lists(md.children, md.items) == ParseObjectF(src, rhs, true, Lists([], []))
  {
  }

  /**
   * Any other documented binding becomes one new item with the binding's
   * file, line, name and description.
   */
  lemma ItemEntry(src: Source, line: int, name: string, rhs: Token, nest: bool, acc: Lists)
    requires Indexed(src.text, src.lines)
    requires !Hidden(MarkersAt(src, line), name) && !BecomesModule(MarkersAt(src, line), rhs, nest)
    ensures var r := ProcessItemF(src, line, name, rhs, nest, acc);
      r.children == acc.children
      && |r.items| == |acc.items| + 1
      && r.items[..|acc.items|] == acc.items
      && var it := r.items[|acc.items|];
         it.filename == src.fileName && it.line == line && it.name == name && it.desc == DescAt(src, line)
  {
    ItemAppended(src, line, name, rhs, nest, acc);
    hide ProcessItemF, KindFor, DescAt, MarkersAt;
    var r := ProcessItemF(src, line, name, rhs, nest, acc);
    assert r.items[..|acc.items|] == acc.items;
  }

  /** The kind of the new item: what the value is, unless `@var` says otherwise. */
  function KindFor(src: Source, m: MarkerState, rhs: Token): ItemKind
    requires Indexed(src.text, src.lines)
  {
    if Is(rhs, LCurlKind) && !m.flags.fVar then ClassItem(ParseObjectF(src, rhs, false, Lists([], [])).items)
    else if Is(rhs, FuncKind) && !m.flags.fVar then FuncItem(ParseFunctionF(rhs))
    else VarItem
  }

  /**
   * The new item is a class exactly when the value is an object literal not
   * marked `@var` (its members walked without nesting), a function exactly
   * when the value is a function literal not marked `@var` (its parameters
   * those of the literal), and a variable otherwise.
   */
  lemma EntryKind(src: Source, line: int, name: string, rhs: Token, nest: bool, acc: Lists)
    requires Indexed(src.text, src.lines)
    requires !Hidden(MarkersAt(src, line), name) && !BecomesModule(MarkersAt(src, line), rhs, nest)
    ensures var r := ProcessItemF(src, line, name, rhs, nest, acc);
      |r.items| == |acc.items| + 1 && r.items[|acc.items|].kind == KindFor(src, MarkersAt(src, line), rhs)
  {
    ItemAppended(src, line, name, rhs, nest, acc);
  }

  /** The one item a documented binding that is no module appends. */
  lemma ItemAppended(src: Source, line: int, name: string, rhs: Token, nest: bool, acc: Lists)
    requires Indexed(src.text, src.lines)
    requires !Hidden(MarkersAt(src, line), name) && !BecomesModule(MarkersAt(src, line), rhs, nest)
    ensures ProcessItemF(src, line, name, rhs, nest, acc)
      == acc.(items := acc.items + [Item(src.fileName, line, name, DescAt(src, line), KindFor(src, MarkersAt(src, line), rhs))])
  {
  }

  // ---------------------------------------------------------------------------
  // Comma chains

  /** The elements of a comma chain: the left child of every comma, then the element the chain ends in. */
  function ChainElems(t: Token): (es: seq<Token>)
    ensures t.Token? ==> |es| >= 1 && es[0] == Head(t)
    ensures t.Token? ==> es[1..] == ChainElems(Tail(t))
    decreases Size(t)
  {
    if t.Null? then []
    else if t.kind == CommaKind then [t.children] + ChainElems(t.lastChild)
    else [t]
  }

  /** The parameters of a sequence of elements, in order. */
  function ParamsOf(ts: seq<Token>): seq<Param>
  {
    if ts == [] then [] else ParamOf(ts[0]) + ParamsOf(ts[1..])
  }

  /** Walking a parameter chain appends the parameters of its elements, in order. */
  lemma {:induction false} ParamChainFlat(item: Token, params: seq<Param>)
    ensures ParamChain(item, params) == params + ParamsOf(ChainElems(item))
    decreases Size(item)
  {
    if Is(item, CommaKind) {
      ParamChainFlat(item.lastChild, params + ParamOf(item.children));
      ParamChainComma(item, params);
    } else if item.Token? {
      ParamChainLeaf(item, params);
    } else {
      assert params + [] == params;
    }
  }

  /** One comma of the chain, given what the walk does with the rest of it. */
  lemma ParamChainComma(item: Token, params: seq<Param>)
    requires Is(item, CommaKind)
    requires ParamChain(item.lastChild, params + ParamOf(item.children))
      == params + ParamOf(item.children) + ParamsOf(ChainElems(item.lastChild))
    ensures ParamChain(item, params) == params + ParamsOf(ChainElems(item))
  {
    hide ParamChain, ParamOf, ParseParamF, ChainElems, ParamsOf;
    CommaUnfold(item, params);
    var c, rest := item.children, item.lastChild;
    ParamsOfCons(c, ChainElems(rest));
    assert params + ParamOf(c) + ParamsOf(ChainElems(rest)) == params + (ParamOf(c) + ParamsOf(ChainElems(rest)));
  }

  /** The chain's elements and the walk, one comma unfolded. */
  lemma CommaUnfold(item: Token, params: seq<Param>)
    requires Is(item, CommaKind)
    ensures ChainElems(item) == [item.children] + ChainElems(item.lastChild)
    ensures ParamChain(item, params) == ParamChain(item.lastChild, params + ParamOf(item.children))
  {
  }

  /** The element a chain ends in. */
  lemma ParamChainLeaf(item: Token, params: seq<Param>)
    requires item.Token? && item.kind != CommaKind
    ensures ParamChain(item, params) == params + ParamsOf(ChainElems(item))
  {
    assert ChainElems(item) == [item];
    hide ParamOf, ParseParamF, ChainElems;
    ParamsOfCons(item, []);
    assert ParamOf(item) + [] == ParamOf(item);
  }

  /** The parameters of a first element and those of the elements after it. */
  lemma ParamsOfCons(t: Token, ts: seq<Token>)
    ensures ParamsOf([t] + ts) == ParamOf(t) + ParamsOf(ts)
  {
    assert ([t] + ts)[1..] == ts;
  }

  /** `parse_function` gives one parameter per recognised element of its list, in source order. */
  lemma FunctionParams(tok: Token)
    requires tok.Token?
    ensures ParseFunctionF(tok) == if Is(tok.children, LParKind) then ParamsOf(ChainElems(tok.children.children)) else []
  {
    if Is(tok.children, LParKind) {
      ParamChainFlat(tok.children.children, []);
      assert [] + ParamsOf(ChainElems(tok.children.children)) == ParamsOf(ChainElems(tok.children.children));
    }
  }

  /** No parameter is both variadic and optional, and a nameless one is neither. */
  lemma {:induction false} ParamsFlags(ts: seq<Token>)
    ensures forall p :: p in ParamsOf(ts) ==> !(p.variable && p.optional) && (p.name.None? ==> !p.variable && !p.optional)
  {
    if ts != [] {
      ParamsFlags(ts[1..]);
      var _ := ParseParamF(ts[0]);
    }
  }

  /** The members of an object literal's chain, element by element. */
  function ItemsOf(src: Source, ts: seq<Token>, nest: bool, acc: Lists): Lists
    requires Indexed(src.text, src.lines)
  {
    if ts == [] then acc else ItemsOf(src, ts[1..], nest, ObjectItem(src, ts[0], nest, acc))
  }

  /** `parse_object` walks the elements of the chain under the literal, in order. */
  lemma {:induction false} ObjectChainFold(src: Source, item: Token, nest: bool, acc: Lists)
    requires Indexed(src.text, src.lines)
    ensures ObjectChain(src, item, nest, acc) == ItemsOf(src, ChainElems(item), nest, acc)
    decreases Size(item)
  {
    if Is(item, CommaKind) {
      ObjectChainFold(src, item.lastChild, nest, ObjectItem(src, item.children, nest, acc));
    } else if item.Token? {
      assert ChainElems(item)[1..] == [];
    }
  }

  /** The targets and values of a destructuring, paired position by position up to the shorter chain. */
  function Zip(a: seq<Token>, b: seq<Token>): (z: seq<(Token, Token)>)
    ensures |z| == if |a| < |b| then |a| else |b|
    ensures forall k :: 0 <= k < |z| ==> z[k] == (a[k], b[k])
  {
    if a == [] || b == [] then [] else [(a[0], b[0])] + Zip(a[1..], b[1..])
  }

  /** One target paired with one value: bound when both are present and the target names a variable. */
  function BindOne(src: Source, lhp: Token, rhp: Token, expectVar: bool, acc: Lists): Lists
    requires Indexed(src.text, src.lines)
  {
    if lhp.Token? && rhp.Token? && TargetName(lhp, expectVar).Some? then
      ProcessItemF(src, lhp.line, TargetName(lhp, expectVar).value, rhp, true, acc)
    else acc
  }

  /** The pairs bound one after the other. */
  function BindAll(src: Source, pairs: seq<(Token, Token)>, expectVar: bool, acc: Lists): Lists
    requires Indexed(src.text, src.lines)
  {
    if pairs == [] then acc else BindAll(src, pairs[1..], expectVar, BindOne(src, pairs[0].0, pairs[0].1, expectVar, acc))
  }

  /** The destructuring loop binds the zipped targets and values in order and stops at the shorter chain. */
  lemma {:induction false} DestructureFold(src: Source, lhs: Token, rhs: Token, expectVar: bool, acc: Lists)
    requires Indexed(src.text, src.lines)
    ensures Destructure(src, lhs, rhs, expectVar, acc) == BindAll(src, Zip(ChainElems(lhs), ChainElems(rhs)), expectVar, acc)
    decreases Size(lhs)
  {
    var a := ChainElems(lhs);
    var b := ChainElems(rhs);
    if lhs.Token? && rhs.Token? {
      var acc1 := BindOne(src, Head(lhs), Head(rhs), expectVar, acc);
      DestructureUnfold(src, lhs, rhs, expectVar, acc);
      var z := Zip(a, b);
      assert z[0] == (Head(lhs), Head(rhs)) && z[1..] == Zip(a[1..], b[1..]);
      BindAllCons(src, z, expectVar, acc);
      hide Destructure, BindAll, BindOne, Zip;
      if Tail(lhs).Token? && Tail(rhs).Token? {
        DestructureFold(src, Tail(lhs), Tail(rhs), expectVar, acc1);
      } else {
        assert a[1..] == [] || b[1..] == [];
        BindAllNil(src, Zip(a[1..], b[1..]), expectVar, acc1);
      }
    } else {
      BindAllNil(src, Zip(a, b), expectVar, acc);
    }
  }

  /** Both chains go on: the first pair is bound, then the rest of both chains. */
  lemma DestructureUnfold(src: Source, lhs: Token, rhs: Token, expectVar: bool, acc: Lists)
    requires Indexed(src.text, src.lines) && lhs.Token? && rhs.Token?
    ensures var acc1 := BindOne(src, Head(lhs), Head(rhs), expectVar, acc);
      Destructure(src, lhs, rhs, expectVar, acc) ==
        if Tail(lhs).Token? && Tail(rhs).Token? then Destructure(src, Tail(lhs), Tail(rhs), expectVar, acc1)
        else acc1
  {
  }

  lemma BindAllCons(src: Source, pairs: seq<(Token, Token)>, expectVar: bool, acc: Lists)
    requires Indexed(src.text, src.lines) && pairs != []
    ensures BindAll(src, pairs, expectVar, acc) == BindAll(src, pairs[1..], expectVar, BindOne(src, pairs[0].0, pairs[0].1, expectVar, acc))
  {
  }

  lemma BindAllNil(src: Source, pairs: seq<(Token, Token)>, expectVar: bool, acc: Lists)
    requires Indexed(src.text, src.lines) && |pairs| == 0
    ensures BindAll(src, pairs, expectVar, acc) == acc
  {
  }

  /** Each pair adds at most one entry. */
  lemma {:induction false} BindAllCount(src: Source, pairs: seq<(Token, Token)>, expectVar: bool, acc: Lists)
    requires Indexed(src.text, src.lines)
    ensures var r := BindAll(src, pairs, expectVar, acc);
      |r.children| + |r.items| <= |acc.children| + |acc.items| + |pairs|
  {
    if pairs != [] {
      BindAllCount(src, pairs[1..], expectVar, BindOne(src, pairs[0].0, pairs[0].1, expectVar, acc));
    }
  }

  /** A destructuring documents at most as many bindings as the shorter of its two chains has elements. */
  lemma DestructureCount(src: Source, lhs: Token, rhs: Token, expectVar: bool, acc: Lists)
    requires Indexed(src.text, src.lines)
    ensures var r := Destructure(src, lhs, rhs, expectVar, acc);
      var a := |ChainElems(lhs)|;
      var b := |ChainElems(rhs)|;
      |r.children| + |r.items| <= |acc.children| + |acc.items| + (if a < b then a else b)
  {
    DestructureFold(src, lhs, rhs, expectVar, acc);
    BindAllCount(src, Zip(ChainElems(lhs), ChainElems(rhs)), expectVar, acc);
  }

  // ---------------------------------------------------------------------------
  // The statement walk

  /** The assignments the top-level walk reaches, in source order. */
  function Statements(tok: Token): seq<Token>
    decreases Size(tok)
  {
    match tok
    case Null => []
    case Token(kind, children, lastChild, _, _, _) =>
      if kind == TopKind then Statements(lastChild)
      else if kind == SemiKind then Statements(children) + Statements(lastChild)
      else if kind == AssignKind then [tok]
      else []
  }

  /** The assignments processed one after the other. */
  function AssignAll(src: Source, ts: seq<Token>, acc: Lists): Lists
    requires Indexed(src.text, src.lines)
  {
    if ts == [] then acc
    else AssignAll(src, ts[1..], if ts[0].Token? then AssignF(src, ts[0], acc) else acc)
  }

  /** Processing two runs of assignments is processing the first, then the second. */
  lemma {:induction false} AssignAllAppend(src: Source, xs: seq<Token>, ys: seq<Token>, acc: Lists)
    requires Indexed(src.text, src.lines)
    ensures AssignAll(src, xs + ys, acc) == AssignAll(src, ys, AssignAll(src, xs, acc))
  {
    if xs != [] {
      assert (xs + ys)[1..] == xs[1..] + ys;
      AssignAllAppend(src, xs[1..], ys, if xs[0].Token? then AssignF(src, xs[0], acc) else acc);
    } else {
      assert xs + ys == ys;
    }
  }

  /** `parse_toplevel` processes the assignments of the statement tree from left to right. */
  lemma {:induction false} ToplevelFold(src: Source, tok: Token, acc: Lists)
    requires Indexed(src.text, src.lines)
    ensures ParseToplevelF(src, tok, acc) == AssignAll(src, Statements(tok), acc)
    decreases Size(tok)
  {
    if tok.Token? {
      if tok.kind == TopKind {
        ToplevelFold(src, tok.lastChild, acc);
      } else if tok.kind == SemiKind {
        ToplevelFold(src, tok.children, acc);
        ToplevelFold(src, tok.lastChild, ParseToplevelF(src, tok.children, acc));
        AssignAllAppend(src, Statements(tok.children), Statements(tok.lastChild), acc);
      } else if tok.kind == AssignKind {
        assert AssignAll(src, [tok], acc) == AssignAll(src, [], AssignF(src, tok, acc));
      }
    }
  }
}
