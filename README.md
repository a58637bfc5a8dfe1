# Nasal-DocGen core in Dafny

Nasal-DocGen reads Nasal source files and builds a documentation tree from
their comments. This project models the part of it that collects that
documentation:

- **Comment markers** (`src/marker.c`). Each `@word` line of a doc comment is
  classified by the first directive its word is a prefix of, in the
  source's own order. Flags are raised. `@type`, `@param`, `@prop` and
  `@return` lines are split into a name, a type annotation and a
  description. `@inherit` lists are collected.
- **The type-annotation parser** (`src/marker.c`). It is a lexer, a
  bracket-nesting pass, two operator-grouping passes (`,` then `|`) and a
  lowering pass into `nil`/`any`/`num`/`str`/vector/hash/class/function
  types.
- **Per-file extraction** (`src/parse.c`). The file is indexed into
  lines. The `#` comment block above each declaration is read backwards
  into a description and markers, and conflicting flags are resolved.
  Private names are dropped. Each declaration becomes a variable,
  function (with its parameters), class (with its members) or submodule.
  Simple and destructuring assignments at top level are walked, as are
  the entries of object literals.
- **The list container and `astrndup`** (`src/util.c`). This is the
  one-element inline mode, the NULL-terminated array mode and its growth
  rule, iteration, cursor iteration and sorting.
- **The driver's tree logic** (`src/main.c`). A `file:module` argument is
  split and its module path validated. The longest common directory of
  the inputs without a module is found, and their relative paths are
  mangled into module paths. Each input is placed in the module tree
  through `find_or_create_module`. Every level of the finished tree is
  then sorted by name.

Design:

- **Values.** Tokens, types, items, modules and marker sets are
  datatypes.
- **The list.** `struct list` is a class (`Util.List`) over an array,
  with a ghost `Contents` sequence and its representation invariant. The
  marker accumulator is a class (`Marker.Markers`) whose methods are
  proved against the pure functions that specify them.
- **Loops.** Every loop of the source is a method. Its `ensures` ties its
  result to a reference function: the recursive-descent grouping `Brackets`
  for the pointer-rewriting bracket pass, the fold `ParseToplevelF` for the
  tree walks, and `SortModuleF` for the sort. The properties are then proved
  about those functions.

The host Nasal parser is outside the model. Its token tree is an input,
the datatype `Parse.Token`.

## Model

| member | source | states |
|---|---|---|
| Util.FirstSome | src/util.c:101-112 | `list_iter`'s result is NULL iff the callback yields NULL on every element; otherwise it is the callback's value at the first element where it is non-NULL |
| Util.List.constructor | src/util.c:16-22 | `list_new` gives a valid empty list in inline mode (alloc 0) |
| Util.List.Length | src/util.c:39-41 | `list_length` is the number of elements |
| Util.List.Get | src/util.c:43-47 | an index past the end gives NULL; otherwise the element at that index (inline mode decided by `alloc`) |
| Util.List.GetAsWritten | src/util.c:43-47 | as written, a list of length 1 in array mode hands back the array pointer instead of its element; in every other state it agrees with `Get` |
| Util.List.Set | src/util.c:49-57 | out of range: NULL and no change; otherwise the old element is returned and exactly that position is replaced |
| Util.List.Push | src/util.c:59-83 | the contents gain the value at the end and the invariant holds; alloc stays 0 on the first push, becomes 4 on the second, and grows by doubling up to 64 and then by 64 when the sentinel slot would be reached |
| Util.List.Pop | src/util.c:85-99 | an empty list gives NULL and stays empty; otherwise the last element is returned and removed; the invariant holds |
| Util.List.Iter | src/util.c:101-112 | the loop returns exactly `FirstSome` of the contents |
| Util.List.Sort | src/util.c:114-117 | the new contents are a permutation of the old ones, ordered by `strcmp` of the key; a list in inline mode or shorter than two is untouched |
| Util.List.SinkAt | src/util.c:114-117 | one insertion pass keeps a permutation and extends the sorted prefix by one |
| Util.List.IterStart | src/util.c:119-123 | `list_iter_start` resets the cursor to 0 and returns the first element, or NULL for an empty list |
| Util.List.IterNext | src/util.c:125-132 | in inline mode or with at most one element the cursor does not move and NULL is returned; otherwise the cursor advances and the element there, or NULL past the end, is returned |
| Util.List.IterContinue | src/util.c:134-136 | true iff the cursor is before the end |
| Util.PushThenPop | src/util.c:59-99 | a push followed by a pop restores the contents and returns the pushed value |
| Util.GetAfterPushPushPop | src/util.c:43-99 | two pushes and a pop leave one element in array mode, where `list_get` as written returns the array pointer although the element is `x` |
| Util.Astrndup | src/util.c:177-184 | the copy is a prefix of the source of at most `length` characters, holds no NUL, and stops short of `length` only at a NUL |
| Strings.SkipSeps | src/marker.c:38 | `strspn(…, "\t\r\n ")`: the returned position ends the run of separators starting at `i` |
| Strings.SkipWord | src/marker.c:39 | `strcspn(…, "\t\r\n ")`: the returned position ends the run of non-separators |
| Strings.SkipBlanks | src/parse.c:97 | the `isblank` loop: the returned position ends the run of spaces and tabs |
| Strings.IndexOf | src/parse.c:103 | `strchr`: the first position at or after `i` holding `c`, or -1 when there is none |
| Strings.StrCmpZeroIffEqual | src/main.c:326-332 | `strcmp` is 0 exactly on equal names |
| Strings.StrCmpAntisymmetric | src/main.c:326-332 | swapping the arguments of `strcmp` negates the result |
| Strings.StrLeTotal | src/main.c:326-332 | any two names are ordered one way or the other |
| Strings.StrLeTransitive | src/main.c:326-332 | the name order is transitive |
| Sorting.SortByKeySorted | src/util.c:114-117 | the reference sort yields a sequence ordered by the key |
| Sorting.SortByKey | src/util.c:114-117 | the reference sort is a permutation of its input |
| Sorting.SortSortedIsIdentity | src/util.c:114-117 | sorting an ordered sequence leaves it unchanged |
| Sorting.SortMapCommutes | src/main.c:341-348 | sorting then applying a key-preserving map equals mapping then sorting, so sorting a level before or after its children gives the same tree |
| Sorting.AdjacentSortedIsSorted | src/util.c:114-117 | a sequence ordered at every adjacent pair is ordered |
| TypeGrammar.IdentType | src/marker.c:364-385 | an identifier is a class type iff it is not one of `nil`, `any`, `num`, `str`, and then the class name is the identifier |
| TypeGrammar.IdentEnd | src/marker.c:175-185 | the identifier run ends at the first character that is neither alphanumeric nor `_` |
| TypeGrammar.TokensLex | src/marker.c:145-197 | the lexing loop produces exactly `Lex` of the text |
| TypeGrammar.LexOne | src/marker.c:151-190 | one turn of the lexing loop consumes at least one character and keeps the tokens-so-far plus the rest equal to the whole |
| TypeGrammar.LexConcat | src/marker.c:145-197 | lexing two texts whose junction is not inside an identifier is lexing each and concatenating |
| TypeGrammar.LexIdentifier | src/marker.c:169-185 | an identifier lexes to one identifier token carrying its text |
| TypeGrammar.LexPunct | src/marker.c:155-167 | each of the twelve punctuation characters lexes to its own token |
| TypeGrammar.Group | src/marker.c:199-254 | the recursive-descent bracket grouping never grows the input, and leaves no rest when no closer was found |
| TypeGrammar.StepResume | src/marker.c:203-253 | one step of the bracket pass's parent-chain machine preserves the result the remaining tokens will give |
| TypeGrammar.RegroupBrackets | src/marker.c:199-254 | the pointer-rewriting bracket pass yields exactly the recursive-descent grouping `Brackets` |
| TypeGrammar.JoinSplit | src/marker.c:277-295 | cutting a level at its operator tokens and joining the pieces back restores the level |
| TypeGrammar.SplitJoin | src/marker.c:277-295 | pieces free of the operator, joined and cut again, come back unchanged |
| TypeGrammar.Heads | src/marker.c:277-292 | each separator token becomes the head of the piece after it |
| TypeGrammar.RegroupKids | src/marker.c:262-265 | regrouping children keeps the level's length and each token's lexeme |
| TypeGrammar.RegroupOpLevel | src/marker.c:256-296 | the in-place operator grouping yields exactly `RegroupOp` |
| TypeGrammar.RegroupChildren | src/marker.c:261-267 | the first loop regroups every child and reports whether the level holds the operator |
| TypeGrammar.GroupAtOp | src/marker.c:269-295 | the second loop builds the operator groups of `GroupLevel` |
| TypeGrammar.CommaSets | src/marker.c:324-331 | a `,` level yields one parameter typeset per group |
| TypeGrammar.TokensApply | src/marker.c:298-392 | lowering appends exactly `Apply` of the tree to the typeset |
| TypeGrammar.ParamTypesets | src/marker.c:319-340 | the parameter typesets of a `(` group: one per `,` group, or one for a single parameter; an empty `()` gives none, under the reading of empty bracket pairs given under Left out |
| TypeGrammar.ParseTypeInto | src/marker.c:404-418 | `parse_type` appends `ParseType` of the text to the existing typeset, creating it when absent |
| TypePrinter.ParsePrint | src/marker.c:107-118 | every printable typeset, printed in the annotation grammar, parses back to itself, through a text with no NUL and no stray characters; for typesets holding an empty `[]`, `{}` or `()` this rests on the reading of empty bracket pairs given under Left out |
| TypePrinter.PrintInjective | src/marker.c:107-118 | two printable typesets with the same text are equal |
| TypeExamples.FuncParams | src/marker.c:311-348 | `(num\|str,any)` is a function of a `num\|str` parameter and an `any` parameter, returning nothing declared |
| TypeExamples.FuncReturn | src/marker.c:311-318 | `<num>(str)` is a function of one `str` parameter returning `num` |
| TypeExamples.VectorOfNum | src/marker.c:350-360 | `[num]` is a vector of `num` |
| TypeExamples.HashOfStr | src/marker.c:350-360 | `{str}` is a hash of `str` |
| TypeExamples.Union | src/marker.c:305-309 | `num\|str\|Foo` lists its three alternatives in order |
| TypeExamples.HeadOnly | src/marker.c:298-304 | in `a[b]` only the head token `a` contributes a variant |
| TypeExamples.TopLevelComma | src/marker.c:256-296 | `a,b` outside any bracket yields no variant at all |
| TypeExamples.ShortSpellings | src/marker.c:364-373 | `!` is `nil` and `*` is `any` |
| TypeExamples.NoTokens | src/marker.c:151-173 | text without token characters yields no variant |
| TypeExamples.UnclosedOpener | src/marker.c:209-219 | `[a` with no closer is a vector whose element is `a`: the opener takes every following token |
| TypeExamples.MismatchedCloser | src/marker.c:226-233 | in `[a)` the `)` does not match the open `[`, stays inside it and is passed over, giving a vector of `a` |
| Marker.Keyword | src/marker.c:19-68 | every directive keyword has at least three characters and starts with a lower-case letter |
| Marker.Rank | src/marker.c:19-68 | each directive sits at its rank in the source's test order |
| Marker.Markers.constructor | src/parse.c:135 | `markers_new` starts with no flag and no list |
| Marker.Markers.ParseMarker | src/marker.c:13-105 | the marker state after a line is `ParseMarkerSpec` of the old state and the line |
| Marker.Markers.RaiseFlag | src/marker.c:19-36 | a flag directive sets its flag and changes nothing else |
| Marker.Markers.Inherit | src/marker.c:44-55 | the inherit loop creates the list if needed and appends the line's words in order |
| Marker.Markers.AddEntry | src/marker.c:56-101 | a `param`/`prop`/`return` line changes the state as `Entry` says |
| Marker.Markers.Push | src/marker.c:87-101 | the pair is appended to the return, param or prop list, which is created if absent |
| Marker.WordsStep | src/marker.c:50-55 | one turn of the inherit loop takes the next word and moves past the separators after it |
| MarkerFacts.FirstWhereSpec | src/marker.c:19-68 | the table scan returns the first entry satisfying the test, or none when none does |
| MarkerFacts.MatchDirectiveSpec | src/marker.c:17-68 | a marker word selects directive `d` iff it is a prefix of `d`'s keyword and of no keyword tested before `d` |
| MarkerFacts.MatchDirectiveNone | src/marker.c:17-68 | a word selects nothing iff it is a prefix of no keyword |
| MarkerFacts.ShortWordReturn | src/marker.c:17-57 | `@ret` is read as `@return` |
| MarkerFacts.ShortWordReadonly | src/marker.c:17-22 | `@re` is read as `@readonly` |
| MarkerFacts.EmptyWordConst | src/marker.c:17-20 | a bare `@` is read as `@const` |
| MarkerFacts.ShortWordProp | src/marker.c:17-57 | `@pro` is read as `@prop`, not `@private` |
| MarkerFacts.ShortWordPublic | src/marker.c:17-30 | `@p` is read as `@public` |
| MarkerFacts.LongWordExample | src/marker.c:17-68 | `@constant` is longer than `const` and selects nothing |
| MarkerFacts.CaseExample | src/marker.c:17-68 | matching is case-sensitive: `@Type` selects nothing |
| MarkerFacts.SetFlagEffect | src/marker.c:19-36 | after a flag directive, each flag is its old value or-ed with being the directive's flag (`const` and `readonly` share one); the lists are unchanged |
| MarkerFacts.FlagDirective | src/marker.c:19-36 | a line whose word selects a flag directive sets exactly that flag and leaves the lists unchanged |
| MarkerFacts.OtherLinesKeepFlags | src/marker.c:37-102 | a line that selects no flag directive leaves every flag as it was; a line that selects nothing changes nothing |
| MarkerFacts.ListsOnlyGrow | src/marker.c:13-105 | a marker line only appends to the type, return, param, prop and inherit lists: each old list is a prefix of the new one |
| MarkerFacts.DescAsWritten | src/marker.c:79-82 | as written, the description starts after the separators following the type word and has `line + length - arg` characters modulo 2^64 |
| MarkerFacts.DescAgrees | src/marker.c:79-82 | when the separators stop within the line, the as-written copy and `Desc` agree on whether there is a description and what it is |
| MarkerFacts.DescOverrun | src/marker.c:79-82 | when the separators run past the line end, the as-written length wraps and the copy reaches past the whole text, while `Desc` gives none |
| MarkerFacts.DescOverrunExample | src/marker.c:79-82 | `@return num` followed by an indented next line makes the as-written copy run past the text |
| MarkerFacts.DescWithinLine | src/marker.c:79-82 | `Desc` has no description iff the separators reach the line end; otherwise it is the non-empty tail of the line after them |
| MarkerLines.TypeSelects | src/marker.c:37 | `@type` selects the type directive |
| MarkerLines.InheritSelects | src/marker.c:44 | `@inherit` selects the inherit directive |
| MarkerLines.ParamSelects | src/marker.c:56-57 | `@param` selects the param directive |
| MarkerLines.PropSelects | src/marker.c:56-57 | `@prop` selects the prop directive |
| MarkerLines.ReturnSelects | src/marker.c:56-57 | `@return` selects the return directive |
| MarkerLines.TypeLineRoundTrip | src/marker.c:37-43 | a `@type` line carrying a printed typeset appends exactly that typeset to the marker type |
| MarkerLines.TypeLineWord | src/marker.c:37-43 | a `@type` line appends `ParseType` of its argument word |
| MarkerLines.ReturnLineWord | src/marker.c:56-92 | a `@return` line appends one pair of its parsed type word and its description |
| MarkerLines.ReturnLineRoundTrip | src/marker.c:56-92 | a `@return` line with a printed typeset and optional description appends that typeset and description |
| MarkerLines.ParamLineRoundTrip | src/marker.c:56-101 | a `@param` line appends a named pair of its name, typeset and description to the params |
| MarkerLines.PropLineRoundTrip | src/marker.c:56-101 | a `@prop` line appends a named pair of its name, typeset and description to the props |
| MarkerLines.NamedLineWord | src/marker.c:56-101 | a `@param`/`@prop` line with a name and a type word appends one named pair to its list |
| MarkerLines.NoArgument | src/marker.c:37-66 | a `@type`, `@param`, `@prop` or `@return` line without an argument changes nothing |
| MarkerLines.NoTypeWord | src/marker.c:68-75 | a `@param` or `@prop` line with a name but no type word changes nothing |
| MarkerLines.WordsOfJoin | src/marker.c:47-55 | the inherit loop reads back exactly the words of a space-joined list |
| MarkerLines.InheritLineRoundTrip | src/marker.c:44-55 | an `@inherit` line appends its names, in order, to the inherit list |
| Parse.LinesFrom | src/parse.c:88-105 | the index starts one record at `start`, whose text start skips the leading blanks |
| Parse.BuildLines | src/parse.c:88-105 | the line-index loop produces exactly `LinesFrom` of the text |
| Parse.NextRecord | src/parse.c:92-103 | one turn closes the current record at the newline and opens the next one after it |
| Parse.LinesIndexed | src/parse.c:88-105 | every record lies in the text, with its text start inside it |
| ParseFacts.LinesCount | src/parse.c:88-105 | a text with n newlines has n + 1 line records |
| ParseFacts.LinesCover | src/parse.c:88-105 | the records tile the text: their texts concatenate back to the whole file |
| ParseFacts.LinesShape | src/parse.c:88-105 | each record ends where the next begins, and the last runs to the end of the text |
| ParseFacts.LinesSkipBlanks | src/parse.c:96-97 | each record's text start is the first character that is not a space or a tab |
| ParseFacts.LinesTerminated | src/parse.c:88-105 | every record but the last ends with a newline |
| Parse.CollectComment | src/parse.c:133-159 | the backwards scan above a declaration yields exactly `ScanDesc` for the description and `ScanDirectives` for the markers |
| Parse.ScanLine | src/parse.c:137-156 | one comment line goes to `parse_marker` when its text begins with `@`, or is prepended to the description otherwise |
| Parse.DirectiveLine | src/parse.c:146-147 | an `@` line updates the markers as `DirectiveStep` says |
| Parse.DirectiveStepIs | src/parse.c:140-147 | a directive step is `ParseMarkerSpec` on the line's text after its hashes and blanks, bounded by the line end |
| Parse.PrependLine | src/parse.c:149-153 | the prepended description is the line text followed by the old description, of the summed length, ending in a newline |
| Parse.Resolve | src/parse.c:161-164 | more than one of var/module/class clears all three; public together with private clears both; otherwise the flags stay; nothing else changes |
| Parse.ProcessItemF | src/parse.c:125-212 | `process_item` only appends, adds at most one entry, and adds no submodule where submodules are not collected |
| Parse.ParseObjectF | src/parse.c:318-332 | walking an object literal only appends, and adds no submodule where none are collected |
| Parse.ParseParamF | src/parse.c:334-369 | no parameter is both variadic and optional, a nameless one has neither flag, and none is pushed exactly for a missing token or a default or variadic form without a symbol |
| Parse.ParseToplevelF | src/parse.c:214-298 | walking the top level only appends to the module's children and items |
| Parse.AssignF | src/parse.c:231-293 | the assignment walk only appends, and an assignment to a bare symbol without `var` adds nothing |
| Parse.Destructure | src/parse.c:247-291 | the destructuring walk only appends |
| Parse.ProcessItem | src/parse.c:125-212 | the method gives exactly `ProcessItemF` |
| Parse.ParseObject | src/parse.c:318-332 | the loop gives exactly `ParseObjectF` |
| Parse.ParseObjectItem | src/parse.c:300-316 | the method gives exactly `ObjectItem`: a `key: value` entry with a symbol key is processed as an item, anything else is skipped |
| Parse.ParseFunction | src/parse.c:371-382 | the loop gives exactly `ParseFunctionF` |
| Parse.ParseToplevel | src/parse.c:214-298 | the method gives exactly `ParseToplevelF` |
| Parse.Assign | src/parse.c:231-293 | the method gives exactly `AssignF` |
| Parse.DestructureLoop | src/parse.c:258-290 | the pairing loop gives exactly `Destructure` |
| Parse.ParseFile | src/parse.c:88-107 | `parse_file` indexes the text and appends to the target module exactly what the top-level walk yields |
| ParseFacts.ScanAttaches | src/parse.c:137-159 | the scan covers the maximal run of comment lines directly above, stopping at the first non-comment line, and the description is the prose of that run in file order |
| ParseFacts.CommentBlock | src/parse.c:137-159 | for every declaration line, the gathered description is the prose of the comment block directly above it |
| ParseFacts.ProseLine | src/parse.c:140-154 | a prose line contributes its text after the hashes and blanks, ending with a newline |
| ParseWalk.HiddenSkipped | src/parse.c:166-168 | a private name, or one starting with `_` that is not marked public, adds nothing |
| ParseWalk.ModuleEntry | src/parse.c:178-193 | an object marked `@module` where submodules are collected becomes one new child with the file, line, name and description, whose contents are the walk of the object; the items are unchanged |
| ParseWalk.ItemEntry | src/parse.c:169-176 | any other visible declaration appends one item with the file, line, name and description; the children are unchanged |
| ParseWalk.EntryKind | src/parse.c:178-208 | the item is a class of the object's members, a function of its parameters, or a variable, as `KindFor` decides from the right-hand side and the var flag |
| ParseWalk.ItemAppended | src/parse.c:169-208 | the whole effect of a visible non-module declaration is appending that one item |
| ParseWalk.ChainElems | src/parse.c:376-381 | a `,` chain lists its first element, then the elements of its tail |
| ParseWalk.ParamChainFlat | src/parse.c:376-381 | the parameter chain is walked in source order: one `parse_param` per chain element |
| ParseWalk.FunctionParams | src/parse.c:371-382 | a function's parameters are those of the elements of its `(` list, in order, or none without one |
| ParseWalk.ParamsFlags | src/parse.c:334-369 | no collected parameter is both variadic and optional, and a nameless one has neither flag |
| ParseWalk.ObjectChainFold | src/parse.c:326-331 | an object literal's entries are processed in source order, one per chain element |
| ParseWalk.Zip | src/parse.c:258-290 | the pairing is positionwise and as long as the shorter side |
| ParseWalk.DestructureFold | src/parse.c:258-290 | destructuring binds the left and right elements pairwise, in order, until either side runs out |
| ParseWalk.BindAllCount | src/parse.c:258-290 | binding adds at most one entry per pair |
| ParseWalk.DestructureCount | src/parse.c:258-290 | a destructuring assignment adds at most as many entries as the shorter side has elements |
| ParseWalk.AssignAllAppend | src/parse.c:226-229 | walking two statement lists one after the other is walking their concatenation |
| ParseWalk.ToplevelFold | src/parse.c:214-229 | the top-level walk processes the `;`-separated statements in source order |
| Inputs.LastIndexOf | src/main.c:177 | `strrchr`: the last position holding the character, or -1 when there is none |
| Inputs.SplitArgJoin | src/main.c:177-198 | an argument has a module iff it contains `:`; the module then has no `:` and the argument is the file, a `:`, an optional dropped `.`, and the module |
| Inputs.CheckModule | src/main.c:199-216 | the validation loop accepts exactly the valid module paths |
| Inputs.ParseInputs | src/main.c:175-218 | status 0 iff every argument is valid, and then every argument gives an input; status 1 stops at the first invalid one; each input is the split of its argument |
| Inputs.CheckArg | src/main.c:177-216 | one argument's split and validity |
| Inputs.Split | src/main.c:364-371 | cutting at a character gives at least one piece, none of which holds it |
| Inputs.SplitJoin | src/main.c:364-371 | joining the pieces back restores the dotted path |
| Inputs.JoinSplit | src/main.c:364-371 | pieces free of the character, joined and cut again, come back unchanged |
| Inputs.CommonRun | src/main.c:255-263 | the matched run is a shared prefix of both segment lists that cannot be extended |
| Inputs.RunIsCommon | src/main.c:232-277 | the common run is a prefix of the directories of every input without a module |
| Inputs.RunIsLongest | src/main.c:232-277 | every shared directory prefix is a prefix of the common run |
| Inputs.PrefixIsDirPath | src/main.c:279-281 | the prefix length counts the `/`-separated run including the trailing `/` |
| Inputs.CommonDirsBegin | src/main.c:279-287 | each path without a module begins with the common directory, so cutting the prefix is in bounds |
| Inputs.Mangle | src/main.c:293-298 | mangling keeps the length |
| Inputs.MangleShape | src/main.c:293-298 | every mangled character is alphanumeric, `_` or `.`, and `.` exactly where the path had `/` |
| Inputs.MangleValid | src/main.c:199-216 | a relative path without an empty step or a trailing `/` mangles to a module path the argument check would accept |
| Inputs.MangleInPlace | src/main.c:293-298 | the rewriting loop gives exactly `Mangle` |
| Inputs.ResolveInputs | src/main.c:227-305 | inputs with a module are unchanged; each other input gets the mangled, `.nas`-stripped remainder of its path after the common directory |
| Inputs.ResolveOne | src/main.c:285-301 | one turn of the last loop sets that module |
| Inputs.CommonRunOf | src/main.c:228-277 | the first loop computes exactly the common directory run |
| Inputs.PrefixOf | src/main.c:279-281 | the prefix loop computes exactly the length of the common directory path |
| DocTree.FindChild | src/main.c:307-312 | the first child with the name, or -1 when there is none |
| DocTree.FindOrCreate | src/main.c:311-324 | the first child with the segment's name is returned and the children are unchanged; otherwise one fresh node is appended and returned |
| DocTree.Fill | src/main.c:371-375 | the final node of a path gets the input file and line 1 and keeps its name and description; it only gains children and items |
| DocTree.Walk | src/main.c:359-375 | walking a path keeps the starting node's own fields and items |
| DocTree.WalkKeeps | src/main.c:311-324 | a walk changes only the child the first segment selects, or appends one child |
| DocTree.WalkPlaces | src/main.c:359-375 | after the walk, the path leads to the filled node: the existing one when present, otherwise fresh ones |
| DocTree.WalkShares | src/main.c:311-324 | inputs whose paths already exist add no node at the top |
| DocTree.EmptyPath | src/main.c:359-375 | an empty module path is one segment and places the input at a child named by the empty string |
| DocTree.ProcessInputs | src/main.c:350-379 | the tree is the sorted build of every input walked in from the root, in input order |
| DocTree.BuildTree | src/main.c:359-377 | the input loop gives exactly `Build` |
| DocTree.PlaceInput | src/main.c:360-375 | one input is cut into its segments and walked in |
| DocTree.SplitSegments | src/main.c:364-371 | the segment loop gives exactly the path cut at every `.` |
| DocTree.SortModuleF | src/main.c:341-348 | sorting keeps a module's own fields and the number of its children and items |
| DocTree.SortItem | src/main.c:334-339 | only classes are re-sorted, member for member; other items are unchanged |
| DocTree.SortPermutes | src/main.c:341-348 | a sorted level is a permutation of the sorted-below level it came from |
| DocTree.SortModuleSorted | src/main.c:341-348 | every level of the sorted tree, children and items and class members, is ordered by name |
| DocTree.SortItemsSorted | src/main.c:334-339 | sorted items, and the members of every class among them, are ordered by name |
| DocTree.FunctionsKept | src/main.c:334-339 | function items come through the sort unchanged, so their parameters keep source order |
| DocTree.SortModuleIdempotent | src/main.c:341-348 | sorting a sorted tree changes nothing |
| DocTree.SortItemsIdempotent | src/main.c:334-339 | sorting sorted items changes nothing |
| DocTree.SortModule | src/main.c:341-348 | the source's order of work, sort this level then recurse into the children and then the items, gives exactly `SortModuleF` |
| DocTree.SortItems | src/main.c:334-339 | sort the items then recurse into the classes: exactly `SortItemsF` |
| DocTree.SortEach | src/main.c:343-345 | the recursion over the sorted children sorts each of them |
| DocTree.SortEachItem | src/main.c:336-338 | the recursion over the sorted items sorts the members of each class |
| DocTree.SortThenRecurse | src/main.c:341-348 | sorting a level and then its children equals sorting the children first |

## Left out

- Rendering (`src/generate.c`, `generate_docs`) is not part of this model. The tree it receives is the model's result.
- The host Nasal parser (`naParseCode`, `naCodeGen`, `clone_token`, `free_token`) is not modelled. Its token tree is an input (`Parse.Token`, `DocTree.Parsed`). Parser errors and `parse_file`'s early returns 2 and 3 are not modelled. `DocTree.ProcessInputs` therefore assumes that every input parsed.
- `realpath`, `read_file`, `getopt`/`parse_options`, `search_dir` and `main` are file-system and command-line glue. The resolved absolute paths are an input of `Inputs.ResolveInputs`. Its failure path (return 1 when `realpath` fails) is not modelled, and neither is the directory search run when no input is given.
- `asprintf`, `vasprintf`, `perrorf` and the error messages are output formatting. They are not modelled, and only the status codes are kept.
- `list_free`, `tokens_free`, `markers_free` and other memory release are not modelled. Nor are allocation failure, or the 1024-byte growth steps of the line array.
- The fixed bounds `inputs[1024]` and `segments[64]` in `src/main.c`: the model has no limit; the C code overflows them.
- The `doc_used` flag set on comment lines (`src/parse.c:156`) is not modelled, because nothing in the core reads it.
- The markers collected for a declaration are used only to classify it. The other marker data (types, params, props, returns, inherit) is not attached to the item, because `process_item` does not attach it either.
- Intermediate path nodes that `find_or_create_module` creates have no file or line in the source (left unset). The model gives them `None`.
- `Util.List.Sort`: `qsort` is modelled by an in-place insertion sort. The contract claims only a permutation ordered by `strcmp`. It claims nothing about the order of equal names, which `qsort` leaves unspecified. `DocTree.SortModuleF` and `DocTree.SortItemsF` fix one such order (stable). Their lemmas claim only ordering, permutation and idempotence.
- `Util.List.Set`: it uses `alloc` to decide inline mode, as `Get` does. The source's `list_set` tests `length == 1` (`src/util.c:52`), which in array mode would overwrite the array pointer. This is the same defect as `list_get`'s, and only the `list_get` side is modelled as written (see Findings).
- `sort_items` and `sort_module` loop with `LIST_ITER_T`, which is not defined in the headers of this repository. Only `LIST_ITER` is (`src/util.h:6-11`), built on `list_iter_start`/`list_iter_continue`/`list_iter_next`. The cursor methods are modelled exactly, and in particular `IterNext` does not advance on a list of one element. The loops, however, are modelled as a walk over every element, which is what their callers intend.
- Undefined behaviour is resolved as follows:
  - an uninitialised `name` in a destructuring pair (`src/parse.c:259-283`) is taken to bind nothing;
  - a comment scan reaching lines past the end of the index is read as not a comment;
  - `resolved + resolved_len - 4` on a path shorter than four characters is taken not to end in `.nas` (`Inputs.StripNas`).
  - an empty bracket pair `()`, `[]`, `{}` or `<>` (`src/marker.c:216-248`) is an empty group, and the tokens after it stay its siblings. The source sets the opener's `child` to the closer, frees the closer the opener still points at, and clears the opener's `next`, so what follows the pair is dropped and the freed closer is reached again when the tree is lowered and freed. `TypeGrammar.Brackets`, `TypeGrammar.ParamTypesets` and `TypePrinter.ParsePrint` rest on this reading wherever a typeset holds an empty `List`, `Hash` or `Func` parameter list.
- `Marker.Markers.Push`: it stores each entry's type list in `typeset` and its description in `desc`. The source's positional initialisers `{ typeset, desc }` and `{ name, typeset, desc }` (`src/marker.c:84-85`) fill `struct marker_pair` and `struct marker_pair_named`, whose fields are declared `desc` before `typeset` (`src/marker.h:9-18`), so as written the two values land in each other's fields. Nothing in the core reads these pairs back, so the model keeps the intended field order.
- `Marker.Desc`: it bounds the description scan at the line end rather than running into the following text as the source does (see Findings).
- The `current_file` global set by `parse_file`'s second argument is modelled as the input's file name. `src/parse.h:64` declares `parse_file` with two parameters, and `process_inputs` calls it with the file and the module. The definition in `src/parse.c:62` takes three.

## Findings

| source | as written | input that shows it | evidently intended | confidence | as-written member | corrected member |
|---|---|---|---|---|---|---|
| src/marker.c:79-82 | After the type word, `strspn` skips separators without regard to the line's end. When the line ends in a newline and the next line begins with blanks, `arg` passes `line + length`. `line + length - arg` is then negative, is stored in a `size_t`, and `astrndup` copies about 2^64 characters. | the comment line `# @return num` directly above an indented line `  x`; `parse_marker` sees `@return num\n  x` with length 12 | no description when nothing follows the type word on its own line | not executed | MarkerFacts.DescOverrunExample | MarkerFacts.DescWithinLine |
| src/util.c:43-47 | `list_get` decides inline mode by `length == 1` rather than by `alloc == 0`. A list that went to array mode and was popped back to one element returns its array pointer as the element. | `list_push(l, x); list_push(l, y); list_pop(l); list_get(l, 0)` | the remaining element `x` | not executed | Util.GetAfterPushPushPop | Util.List.Get |
