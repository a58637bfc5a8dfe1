/**
 * The module tree of src/main.c: `find_or_create_module`, the path walk of
 * `process_inputs` that places every input at its dotted module path, and
 * `sort_module`/`sort_items`, which order every level by name.
 */
module DocTree {
  import opened Wrappers
  import opened Strings
  import opened Sorting
  import opened Parse
  import opened Inputs

  // ---------------------------------------------------------------------------
  // `find_or_create_module`

  /** The index of the first child named `name`, or -1. */
  function FindChild(children: seq<Module>, name: string): (k: int)
    ensures -1 <= k < |children|
    ensures k >= 0 ==> children[k].name == name && forall j :: 0 <= j < k ==> children[j].name != name
    ensures k == -1 ==> forall j :: 0 <= j < |children| ==> children[j].name != name
  {
    if children == [] then -1
    else if children[0].name == name then 0
    else
      var k := FindChild(children[1..], name);
      if k == -1 then -1 else k + 1
  }

  /** A fresh path node: only its name is set. */
  function NewModule(name: string): Module
  {
    Module(None, None, name, None, [], [])
  }

  /**
   * The first child named `segment`, with the children unchanged, or else a
   * fresh node appended as the one new child.
   */
  function FindOrCreate(children: seq<Module>, segment: string): (r: (seq<Module>, nat))
    ensures r.1 < |r.0| && r.0[r.1].name == segment
    ensures forall j :: 0 <= j < r.1 ==> r.0[j].name != segment
    ensures FindChild(children, segment) >= 0 ==> r.0 == children && r.1 == FindChild(children, segment)
    ensures FindChild(children, segment) == -1 ==> r.0 == children + [NewModule(segment)] && r.1 == |children|
  {
    var k := FindChild(children, segment);
    if k >= 0 then (children, k) else (children + [NewModule(segment)], |children|)
  }

  // ---------------------------------------------------------------------------
  // The path walk of `process_inputs`

  /** What one input's source gives: its text and the token tree the host parser makes of it. */
  datatype Parsed = Parsed(text: string, root: Token)

  /** The final node of a path: it gets the input's file and line 1, then `parse_file` appends to it. */
  function Fill(node: Module, file: string, p: Parsed): (r: Module)
    ensures r.name == node.name && r.filename == Some(file) && r.line == Some(1) && r.desc == node.desc
    ensures node.children <= r.children && node.items <= r.items
  {
    LinesIndexed(p.text, 0);
    var after := ParseToplevelF(Source(file, p.text, LinesFrom(p.text, 0)), p.root, Lists(node.children, node.items));
    node.(filename := Some(file), line := Some(1), children := after.children, items := after.items)
  }

  /** Walks `segs` from `m` through `find_or_create_module` and fills the node at the end. */
  function Walk(m: Module, segs: seq<string>, file: string, p: Parsed): (r: Module)
    requires |segs| >= 1
    ensures r.name == m.name && r.filename == m.filename && r.line == m.line && r.desc == m.desc && r.items == m.items
    decreases |segs|
  {
    var (cs, k) := FindOrCreate(m.children, segs[0]);
    var child := if |segs| == 1 then Fill(cs[k], file, p) else Walk(cs[k], segs[1..], file, p);
    m.(children := cs[k := child])
  }

  /**
   * A walk changes one child of the node it starts from: the first child of
   * the segment's name when there is one, otherwise the one it appends.
   */
  lemma WalkKeeps(m: Module, segs: seq<string>, file: string, p: Parsed)
    requires |segs| >= 1
    ensures var r := Walk(m, segs, file, p); var k := FindChild(m.children, segs[0]);
      (k >= 0 ==> |r.children| == |m.children| && forall j :: 0 <= j < |m.children| && j != k ==> r.children[j] == m.children[j])
      && (k == -1 ==> |r.children| == |m.children| + 1 && r.children[..|m.children|] == m.children)
  {
  }

  /** The node reached from `m` along `segs`, following the first child of each name. */
  function Lookup(m: Module, segs: seq<string>): Option<Module>
    decreases |segs|
  {
    if segs == [] then Some(m)
    else
      var k := FindChild(m.children, segs[0]);
      if k == -1 then None else Lookup(m.children[k], segs[1..])
  }

  /** The node a walk along `segs` ends at before it is filled: the existing one, or a fresh one. */
  function Target(m: Module, segs: seq<string>): Module
    requires |segs| >= 1
  {
    match Lookup(m, segs)
    case Some(n) => n
    case None => NewModule(segs[|segs| - 1])
  }

  /** A path that is missing stays missing below a fresh node. */
  lemma {:induction false} FreshMissing(name: string, segs: seq<string>)
    requires |segs| >= 1
    ensures Target(NewModule(name), segs) == NewModule(segs[|segs| - 1])
  {
  }

  /** After the walk, the path leads to the filled target node. */
  lemma {:induction false} WalkPlaces(m: Module, segs: seq<string>, file: string, p: Parsed)
    requires |segs| >= 1
    ensures Lookup(Walk(m, segs, file, p), segs) == Some(Fill(Target(m, segs), file, p))
    decreases |segs|
  {
    var (cs, k) := FindOrCreate(m.children, segs[0]);
    var r := Walk(m, segs, file, p);
    assert FindChild(r.children, segs[0]) == k by {
      FindChildAt(r.children, segs[0], k);
    }
    if |segs| > 1 {
      WalkPlaces(cs[k], segs[1..], file, p);
      TargetStep(m, segs);
    } else {
      assert Lookup(r.children[k], []) == Some(r.children[k]);
      TargetStep(m, segs);
    }
  }

  /** Finding a name that first occurs at `k`. */
  lemma FindChildAt(children: seq<Module>, name: string, k: nat)
    requires k < |children| && children[k].name == name
    requires forall j :: 0 <= j < k ==> children[j].name != name
    ensures FindChild(children, name) == k
  {
    var r := FindChild(children, name);
    assert r != -1;
    assert !(r < k) && !(k < r);
  }

  /** The target seen from the child the first segment selects. */
  lemma TargetStep(m: Module, segs: seq<string>)
    requires |segs| >= 1
    ensures var (cs, k) := FindOrCreate(m.children, segs[0]);
      Target(m, segs) == if |segs| == 1 then cs[k] else Target(cs[k], segs[1..])
  {
    var k := FindChild(m.children, segs[0]);
    if k == -1 {
      assert Lookup(m, segs) == None;
      if |segs| > 1 {
        FreshMissing(segs[0], segs[1..]);
        assert segs[1..][|segs[1..]| - 1] == segs[|segs| - 1];
      }
    } else if |segs| == 1 {
      assert Lookup(m.children[k], segs[1..]) == Some(m.children[k]);
    }
  }

  /** An existing path adds no node on the way: the root keeps its number of children. */
  lemma WalkShares(m: Module, segs: seq<string>, file: string, p: Parsed)
    requires |segs| >= 1 && Lookup(m, segs).Some?
    ensures |Walk(m, segs, file, p).children| == |m.children|
  {
    WalkKeeps(m, segs, file, p);
  }

  /** The root `process_inputs` starts from; its unset `line` is zero-filled. */
  function Root(): Module
  {
    Module(None, Some(0), "", Some(""), [], [])
  }

  /** The inputs that have their module path: all of them once `resolve_inputs` has run. */
  predicate Placed(inputs: seq<Input>, sources: seq<Parsed>)
  {
    |sources| == |inputs| && forall i :: 0 <= i < |inputs| ==> inputs[i].modulePath.Some?
  }

  /** The tree after the first `n` inputs are walked in. */
  function Build(inputs: seq<Input>, sources: seq<Parsed>, n: nat): Module
    requires Placed(inputs, sources) && n <= |inputs|
  {
    if n == 0 then Root()
    else Walk(Build(inputs, sources, n - 1), Split(inputs[n - 1].modulePath.value, '.'), inputs[n - 1].file, sources[n - 1])
  }

  /** An empty module path places the input at a root child named `""`. */
  lemma EmptyPath(m: Module, file: string, p: Parsed)
    ensures Split("", '.') == [""]
    ensures var r := Walk(m, [""], file, p);
      Lookup(r, [""]).Some? && Lookup(r, [""]).value.name == "" && Lookup(r, [""]).value.filename == Some(file)
  {
    assert IndexOf("", '.', 0) == -1;
    WalkPlaces(m, [""], file, p);
  }

  /**
   * `process_inputs` without the final rendering: every input is walked
   * into the tree from the root, then the tree is sorted.
   */
  method ProcessInputs(inputs: seq<Input>, sources: seq<Parsed>) returns (root: Module)
    requires Placed(inputs, sources)
    ensures root == SortModuleF(Build(inputs, sources, |inputs|))
  {
    var tree := BuildTree(inputs, sources);
    root := SortModule(tree);
  }

  /** The input loop of `process_inputs`, from the root. */
  method BuildTree(inputs: seq<Input>, sources: seq<Parsed>) returns (root: Module)
    requires Placed(inputs, sources)
    ensures root == Build(inputs, sources, |inputs|)
  {
    root := Root();
    BuildStart(inputs, sources);
    for i := 0 to |inputs|
      invariant root == Build(inputs, sources, i)
    {
      root := PlaceInput(root, inputs[i], sources[i]);
      BuildNext(inputs, sources, i);
    }
  }

  lemma BuildStart(inputs: seq<Input>, sources: seq<Parsed>)
    requires Placed(inputs, sources)
    ensures Build(inputs, sources, 0) == Root()
  {
  }

  lemma BuildNext(inputs: seq<Input>, sources: seq<Parsed>, i: nat)
    requires Placed(inputs, sources) && i < |inputs|
    ensures Build(inputs, sources, i + 1)
      == Walk(Build(inputs, sources, i), Split(inputs[i].modulePath.value, '.'), inputs[i].file, sources[i])
  {
  }

  /** One pass of the input loop: the module path cut into segments, then walked. */
  method PlaceInput(root: Module, input: Input, p: Parsed) returns (r: Module)
    requires input.modulePath.Some?
    ensures r == Walk(root, Split(input.modulePath.value, '.'), input.file, p)
  {
    var segments := SplitSegments(input.modulePath.value);
    r := Walk(root, segments, input.file, p);
  }

  /** The segment loop of `process_inputs`: the module path cut at every `.`. */
  method SplitSegments(path: string) returns (segs: seq<string>)
    ensures segs == Split(path, '.')
  {
    segs := [];
    var rest := path;
    var k := IndexOf(rest, '.', 0);
    while k != -1
      invariant k == IndexOf(rest, '.', 0)
      invariant segs + Split(rest, '.') == Split(path, '.')
      decreases |rest|
    {
      SplitAt(rest, k);
      segs, rest := segs + [rest[..k]], rest[k + 1..];
      k := IndexOf(rest, '.', 0);
    }
    segs := segs + [rest];
  }

  /** The first part of a text with a separator, and the rest. */
  lemma SplitAt(s: string, k: int)
    requires k == IndexOf(s, '.', 0) && k != -1
    ensures Split(s, '.') == [s[..k]] + Split(s[k + 1..], '.')
  {
  }

  // ---------------------------------------------------------------------------
  // `sort_module` and `sort_items`

  function ModuleName(m: Module): string { m.name }

  function ItemName(it: Item): string { it.name }

  /**
   * The whole tree ordered by name: every child sorted, then the children
   * ordered by name, and the items sorted.
   */
  function SortModuleF(m: Module): (r: Module)
    ensures r.name == m.name && r.filename == m.filename && r.line == m.line && r.desc == m.desc
    ensures |r.children| == |m.children| && |r.items| == |m.items|
    decreases m, 1
  {
    m.(children := SortByKey(SortAll(m.children), ModuleName), items := SortItemsF(m.items))
  }

  /** Each module sorted, in its place in the sequence. */
  function SortAll(s: seq<Module>): (r: seq<Module>)
    ensures |r| == |s|
    decreases s, 0
  {
    if s == [] then [] else [SortModuleF(s[0])] + SortAll(s[1..])
  }

  /** Items ordered by name, the members of every class sorted the same way. */
  function SortItemsF(items: seq<Item>): (r: seq<Item>)
    ensures |r| == |items|
    decreases items, 1
  {
    SortByKey(SortItemAll(items), ItemName)
  }

  /** Each item with its class members sorted, in its place in the sequence. */
  function SortItemAll(items: seq<Item>): (r: seq<Item>)
    ensures |r| == |items|
    decreases items, 0
  {
    if items == [] then [] else [SortItem(items[0])] + SortItemAll(items[1..])
  }

  /** A class item gets its members sorted; every other item, parameters included, is left as it is. */
  function SortItem(it: Item): (r: Item)
    ensures r.name == it.name && r.filename == it.filename && r.line == it.line && r.desc == it.desc
    ensures !it.kind.ClassItem? ==> r == it
    ensures it.kind.ClassItem? ==> r.kind.ClassItem? && |r.kind.members| == |it.kind.members|
    decreases it, 2
  {
    match it.kind
    case ClassItem(members) => it.(kind := ClassItem(SortItemsF(members)))
    case _ => it
  }

  lemma {:induction false} SortAllAt(s: seq<Module>, j: nat)
    requires j < |s|
    ensures SortAll(s)[j] == SortModuleF(s[j])
  {
    if j > 0 {
      SortAllAt(s[1..], j - 1);
    }
  }

  lemma {:induction false} SortItemAllAt(s: seq<Item>, j: nat)
    requires j < |s|
    ensures SortItemAll(s)[j] == SortItem(s[j])
  {
    if j > 0 {
      SortItemAllAt(s[1..], j - 1);
    }
  }

  /**
   * Sorting a level rearranges its sorted children and items and loses or
   * adds none: the result is a permutation of every element sorted.
   */
  lemma SortPermutes(m: Module)
    ensures multiset(SortModuleF(m).children) == multiset(MapSeq(m.children, SortModuleF))
    ensures multiset(SortItemsF(m.items)) == multiset(MapSeq(m.items, SortItem))
  {
    ToMap(m.children);
    ToItemMap(m.items);
  }

  /** Every level of the tree is ordered by name. */
  ghost predicate SortedTree(m: Module)
    decreases m, 1
  {
    SortedBy(m.children, ModuleName) && SortedItems(m.items) && forall j :: 0 <= j < |m.children| ==> SortedTree(m.children[j])
  }

  /** The items, and the members of every class among them, are ordered by name. */
  ghost predicate SortedItems(items: seq<Item>)
    decreases items, 0
  {
    SortedBy(items, ItemName)
    && forall j :: 0 <= j < |items| ==> items[j].kind.ClassItem? ==> SortedItems(items[j].kind.members)
  }

  /** An element of a sorted level is the sorted form of an element of the level before. */
  lemma SortedFrom(s: seq<Module>, x: Module) returns (i: nat)
    requires x in SortByKey(SortAll(s), ModuleName)
    ensures i < |s| && x == SortModuleF(s[i])
  {
    assert x in multiset(SortAll(s));
    i :| 0 <= i < |s| && SortAll(s)[i] == x;
    SortAllAt(s, i);
  }

  lemma SortedItemFrom(s: seq<Item>, x: Item) returns (i: nat)
    requires x in SortByKey(SortItemAll(s), ItemName)
    ensures i < |s| && x == SortItem(s[i])
  {
    assert x in multiset(SortItemAll(s));
    i :| 0 <= i < |s| && SortItemAll(s)[i] == x;
    SortItemAllAt(s, i);
  }

  /** `sort_module` leaves every level of the tree ordered by name. */
  lemma {:induction false} SortModuleSorted(m: Module)
    ensures SortedTree(SortModuleF(m))
    decreases m, 1
  {
    var r := SortModuleF(m);
    SortByKeySorted(SortAll(m.children), ModuleName);
    SortItemsSorted(m.items);
    forall j | 0 <= j < |r.children| ensures SortedTree(r.children[j]) {
      var i := SortedFrom(m.children, r.children[j]);
      SortModuleSorted(m.children[i]);
    }
  }

  /** `sort_items` leaves the items and every class's members ordered by name. */
  lemma {:induction false} SortItemsSorted(items: seq<Item>)
    ensures SortedItems(SortItemsF(items))
    decreases items, 1
  {
    var r := SortItemsF(items);
    SortByKeySorted(SortItemAll(items), ItemName);
    forall j | 0 <= j < |r| && r[j].kind.ClassItem? ensures SortedItems(r[j].kind.members) {
      var i := SortedItemFrom(items, r[j]);
      SortItemsSorted(items[i].kind.members);
    }
  }

  /** A function item in the sorted items is an item of the input, parameters in their source order. */
  lemma FunctionsKept(items: seq<Item>, x: Item)
    requires x in SortItemsF(items) && x.kind.FuncItem?
    ensures x in items
  {
    var i := SortedItemFrom(items, x);
  }

  /** Sorting a sorted tree changes nothing: sorting twice is sorting once. */
  lemma {:induction false} SortModuleIdempotent(m: Module)
    ensures SortModuleF(SortModuleF(m)) == SortModuleF(m)
    decreases m, 1
  {
    var r := SortModuleF(m);
    SortModuleSorted(m);
    forall j | 0 <= j < |r.children| ensures SortAll(r.children)[j] == r.children[j] {
      SortAllAt(r.children, j);
      var i := SortedFrom(m.children, r.children[j]);
      SortModuleIdempotent(m.children[i]);
    }
    assert SortAll(r.children) == r.children;
    SortSortedIsIdentity(r.children, ModuleName);
    SortItemsIdempotent(m.items);
  }

  /** Sorting sorted items changes nothing. */
  lemma {:induction false} SortItemsIdempotent(items: seq<Item>)
    ensures SortItemsF(SortItemsF(items)) == SortItemsF(items)
    decreases items, 1
  {
    var r := SortItemsF(items);
    SortItemsSorted(items);
    forall j | 0 <= j < |r| ensures SortItemAll(r)[j] == r[j] {
      SortItemAllAt(r, j);
      var i := SortedItemFrom(items, r[j]);
      if items[i].kind.ClassItem? {
        SortItemsIdempotent(items[i].kind.members);
      }
      SortItemStable(items[i], r[j]);
    }
    assert SortItemAll(r) == r;
    SortSortedIsIdentity(r, ItemName);
  }

  /** A sorted item is left alone by a second sort, given that its members are. */
  lemma SortItemStable(it: Item, x: Item)
    requires x == SortItem(it)
    requires it.kind.ClassItem? ==> SortItemsF(SortItemsF(it.kind.members)) == SortItemsF(it.kind.members)
    ensures SortItem(x) == x
  {
    hide SortItem, SortItemsF;
    if it.kind.ClassItem? {
      var ms := SortItemsF(it.kind.members);
      SortItemClass(it);
      assert x.kind.ClassItem? && x.kind.members == ms;
      SortItemClass(x);
    } else {
      SortItemOther(it);
      SortItemOther(x);
    }
  }

  lemma SortItemClass(it: Item)
    requires it.kind.ClassItem?
    ensures SortItem(it) == Item(it.filename, it.line, it.name, it.desc, ClassItem(SortItemsF(it.kind.members)))
  {
  }

  lemma SortItemOther(it: Item)
    requires !it.kind.ClassItem?
    ensures SortItem(it) == it
  {
  }

  /** `sort_module`: sorts the children by name, recurses into each, then sorts the items. */
  method SortModule(m: Module) returns (r: Module)
    ensures r == SortModuleF(m)
    decreases m, 2
  {
    var children := SortByKey(m.children, ModuleName);
    var sorted := SortEach(m, children);
    SortThenRecurse(m.children);
    var items := SortItems(m.items);
    r := m.(children := sorted, items := items);
  }

  /** The loop of `sort_module` over the children already in name order. */
  method SortEach(m: Module, children: seq<Module>) returns (sorted: seq<Module>)
    requires multiset(children) == multiset(m.children)
    ensures sorted == SortAll(children)
    decreases m, 1
  {
    sorted := [];
    for j := 0 to |children|
      invariant sorted == SortAll(children[..j])
    {
      assert children[j] in multiset(m.children);
      var i :| 0 <= i < |m.children| && m.children[i] == children[j];
      var c := SortModule(m.children[i]);
      SortAllPrefix(children, j);
      sorted := sorted + [c];
    }
    assert children[..|children|] == children;
  }

  /** `sort_items`: sorts the items by name, then recurses into every class item. */
  method SortItems(items: seq<Item>) returns (r: seq<Item>)
    ensures r == SortItemsF(items)
    decreases items, 2
  {
    var sorted := SortByKey(items, ItemName);
    r := SortEachItem(items, sorted);
    SortItemsThenRecurse(items);
  }

  /** The loop of `sort_items` over the items already in name order. */
  method SortEachItem(items: seq<Item>, sorted: seq<Item>) returns (r: seq<Item>)
    requires multiset(sorted) == multiset(items)
    ensures r == SortItemAll(sorted)
    decreases items, 1
  {
    r := [];
    for j := 0 to |sorted|
      invariant r == SortItemAll(sorted[..j])
    {
      assert sorted[j] in multiset(items);
      var i :| 0 <= i < |items| && items[i] == sorted[j];
      var it := items[i];
      if it.kind.ClassItem? {
        var members := SortItems(it.kind.members);
        it := it.(kind := ClassItem(members));
      }
      SortItemAllPrefix(sorted, j);
      r := r + [it];
    }
    assert sorted[..|sorted|] == sorted;
  }

  /** One more element of the prefix sorted. */
  lemma SortAllPrefix(s: seq<Module>, j: nat)
    requires j < |s|
    ensures SortAll(s[..j + 1]) == SortAll(s[..j]) + [SortModuleF(s[j])]
  {
    assert s[..j + 1] == s[..j] + [s[j]];
    SortAllSnoc(s[..j], s[j]);
  }

  lemma SortItemAllPrefix(s: seq<Item>, j: nat)
    requires j < |s|
    ensures SortItemAll(s[..j + 1]) == SortItemAll(s[..j]) + [SortItem(s[j])]
  {
    assert s[..j + 1] == s[..j] + [s[j]];
    SortItemAllSnoc(s[..j], s[j]);
  }

  lemma {:induction false} SortAllSnoc(s: seq<Module>, x: Module)
    ensures SortAll(s + [x]) == SortAll(s) + [SortModuleF(x)]
  {
    hide SortModuleF;
    if s != [] {
      var t := s[1..];
      assert s + [x] == [s[0]] + (t + [x]);
      assert s == [s[0]] + t;
      SortAllSnoc(t, x);
      SortAllCons(s[0], t + [x]);
      SortAllCons(s[0], t);
      hide SortAll;
      ConcatAssoc([SortModuleF(s[0])], SortAll(t), [SortModuleF(x)]);
    } else {
      SortAllCons(x, []);
      assert [x] == [x] + [];
    }
  }

  lemma SortAllCons(m: Module, rest: seq<Module>)
    ensures SortAll([m] + rest) == [SortModuleF(m)] + SortAll(rest)
  {
    hide SortModuleF;
    assert ([m] + rest)[1..] == rest;
  }

  lemma {:induction false} SortItemAllSnoc(s: seq<Item>, x: Item)
    ensures SortItemAll(s + [x]) == SortItemAll(s) + [SortItem(x)]
  {
    if s != [] {
      assert (s + [x])[1..] == s[1..] + [x];
      SortItemAllSnoc(s[1..], x);
    }
  }

  /** Sorting the children and then each child is sorting each child and then the children, since names stay. */
  lemma SortThenRecurse(s: seq<Module>)
    ensures SortAll(SortByKey(s, ModuleName)) == SortByKey(SortAll(s), ModuleName)
  {
    SortMapCommutes(s, ModuleName, SortModuleF);
    ToMap(s);
    ToMap(SortByKey(s, ModuleName));
  }

  /** The same for the items and the recursion into classes. */
  lemma SortItemsThenRecurse(s: seq<Item>)
    ensures SortItemAll(SortByKey(s, ItemName)) == SortByKey(SortItemAll(s), ItemName)
  {
    SortMapCommutes(s, ItemName, SortItem);
    ToItemMap(s);
    ToItemMap(SortByKey(s, ItemName));
  }

  lemma ToMap(s: seq<Module>)
    ensures SortAll(s) == MapSeq(s, SortModuleF)
  {
    forall j | 0 <= j < |s| ensures SortAll(s)[j] == MapSeq(s, SortModuleF)[j] {
      SortAllAt(s, j);
      MapSeqAt(s, SortModuleF, j);
    }
  }

  lemma ToItemMap(s: seq<Item>)
    ensures SortItemAll(s) == MapSeq(s, SortItem)
  {
    forall j | 0 <= j < |s| ensures SortItemAll(s)[j] == MapSeq(s, SortItem)[j] {
      SortItemAllAt(s, j);
      MapSeqAt(s, SortItem, j);
    }
  }
}
