/**
 * The command-line inputs of src/main.c: `file:module` arguments are split
 * and validated (`parse_inputs`); files without a module get one named after
 * their path relative to the longest common directory (`resolve_inputs`).
 * The resolved absolute paths `realpath` would return are parameters.
 */
module Inputs {
  import opened Wrappers
  import opened Strings

  /** `struct input`: a file and the dotted module path it documents, if given. */
  datatype Input = Input(file: string, modulePath: Option<string>)

  // ---------------------------------------------------------------------------
  // `parse_inputs`

  /** The last index holding `c`, or -1 (`strrchr`). */
  function LastIndexOf(s: string, c: char): (r: int)
    ensures r == -1 || 0 <= r < |s|
    ensures r == -1 ==> forall k :: 0 <= k < |s| ==> s[k] != c
    ensures r >= 0 ==> s[r] == c && forall k :: r < k < |s| ==> s[k] != c
    decreases |s|
  {
    if s == [] then -1
    else if s[|s| - 1] == c then |s| - 1
    else
      var r := LastIndexOf(s[..|s| - 1], c);
      assert forall k :: 0 <= k < |s| - 1 ==> s[..|s| - 1][k] == s[k];
      r
  }

  /** The module part of an argument as written, after its last `:`. */
  function RawModule(arg: string): Option<string>
  {
    var k := LastIndexOf(arg, ':');
    if k == -1 then None else Some(arg[k + 1..])
  }

  /** The module path an input names: the raw module with one leading `.` dropped. */
  function DropDot(raw: string): string
  {
    if |raw| > 0 && raw[0] == '.' then raw[1..] else raw
  }

  /** An argument split at its last `:` into the file and the module. */
  function SplitArg(arg: string): (r: Input)
  {
    var k := LastIndexOf(arg, ':');
    if k == -1 then Input(arg, None) else Input(arg[..k], Some(DropDot(arg[k + 1..])))
  }

  /**
   * An argument without `:` is a file without module; otherwise the file, a
   * `:`, the module (with the dot that was dropped, if any) give back the
   * argument, and the module holds no `:`.
   */
  lemma SplitArgJoin(arg: string)
    ensures SplitArg(arg).modulePath.None? <==> ':' !in arg
    ensures var r := SplitArg(arg);
      r.modulePath.Some? ==>
        ':' !in r.modulePath.value
        && (arg == r.file + ":" + r.modulePath.value || arg == r.file + ":." + r.modulePath.value)
  {
    var k := LastIndexOf(arg, ':');
    if k != -1 {
      var raw := arg[k + 1..];
      assert arg == arg[..k] + ":" + raw;
      assert forall j :: 0 <= j < |raw| ==> raw[j] == arg[k + 1 + j];
      if |raw| > 0 && raw[0] == '.' {
        assert raw == "." + raw[1..];
      }
    } else {
      assert forall j :: 0 <= j < |arg| ==> arg[j] != ':';
    }
  }

  /** A character a module path may hold. */
  predicate ModuleChar(c: char)
  {
    IsAlnum(c) || c == '_' || c == '.'
  }

  /**
   * The module part as written is accepted: module characters only, no two
   * dots in a row, and no dot at the end unless it is the only character.
   */
  predicate ValidModule(raw: string)
  {
    (forall j :: 0 <= j < |raw| ==> ModuleChar(raw[j]))
    && (forall j :: 0 < j < |raw| ==> !(raw[j - 1] == '.' && raw[j] == '.'))
    && !(|raw| > 1 && raw[|raw| - 1] == '.')
  }

  /** The validation loop of `parse_inputs` over the module part as written. */
  method CheckModule(raw: string) returns (ok: bool)
    ensures ok == ValidModule(raw)
  {
    var lastWasDot := false;
    var j := 1;
    while j < |raw| + 1
      invariant 1 <= j <= |raw| + 1
      invariant lastWasDot == (j > 1 && raw[j - 2] == '.')
      invariant forall k :: 0 <= k < j - 1 ==> ModuleChar(raw[k])
      invariant forall k :: 0 < k < j - 1 ==> !(raw[k - 1] == '.' && raw[k] == '.')
      invariant j - 1 == |raw| ==> !(|raw| > 1 && raw[|raw| - 1] == '.')
    {
      if raw[j - 1] == '.' {
        if lastWasDot || (j == |raw| && j > 1) {
          return false;
        }
        lastWasDot := true;
      } else {
        if !IsAlnum(raw[j - 1]) && raw[j - 1] != '_' {
          assert !ModuleChar(raw[j - 1]);
          return false;
        }
        lastWasDot := false;
      }
      j := j + 1;
    }
    return true;
  }

  /** An argument is accepted when it names no module or a valid one. */
  predicate ArgOk(arg: string)
  {
    RawModule(arg).None? || ValidModule(RawModule(arg).value)
  }

  /**
   * `parse_inputs` over the arguments after the options: every argument is
   * split in turn, and the first one whose module is invalid stops the loop
   * with status 1 (its input is already stored).
   */
  method ParseInputs(args: seq<string>) returns (inputs: seq<Input>, status: int)
    ensures status == 0 || status == 1
    ensures status == 0 <==> forall i :: 0 <= i < |args| ==> ArgOk(args[i])
    ensures status == 0 ==> |inputs| == |args|
    ensures status == 1 ==>
      0 < |inputs| <= |args| && !ArgOk(args[|inputs| - 1])
      && forall i :: 0 <= i < |inputs| - 1 ==> ArgOk(args[i])
    ensures forall i :: 0 <= i < |inputs| ==> inputs[i] == SplitArg(args[i])
  {
    hide SplitArg, ArgOk;
    inputs := [];
    var i := 0;
    while i < |args|
      invariant 0 <= i <= |args| && |inputs| == i
      invariant forall k :: 0 <= k < i ==> ArgOk(args[k]) && inputs[k] == SplitArg(args[k])
    {
      var input, ok := CheckArg(args[i]);
      inputs := inputs + [input];
      if !ok {
        status := 1;
        return;
      }
      i := i + 1;
    }
    status := 0;
  }

  /** One turn of the `parse_inputs` loop: the argument split, and whether its module is accepted. */
  method CheckArg(arg: string) returns (input: Input, ok: bool)
    ensures input == SplitArg(arg) && ok == ArgOk(arg)
  {
    input := SplitArg(arg);
    ok := true;
    var raw := RawModule(arg);
    if raw.Some? {
      ok := CheckModule(raw.value);
    }
  }

  // ---------------------------------------------------------------------------
  // Splitting at a separator

  /** The parts of `s` between the occurrences of `c`. */
  function Split(s: string, c: char): (parts: seq<string>)
    ensures |parts| >= 1
    ensures forall j :: 0 <= j < |parts| ==> c !in parts[j]
    decreases |s|
  {
    var k := IndexOf(s, c, 0);
    if k == -1 then [s]
    else
      assert c !in s[..k] by {
        assert forall j :: 0 <= j < k ==> s[..k][j] == s[j];
      }
      [s[..k]] + Split(s[k + 1..], c)
  }

  /** The parts put back together with `c` between them. */
  function Join(parts: seq<string>, c: char): string
    requires |parts| >= 1
  {
    if |parts| == 1 then parts[0] else parts[0] + [c] + Join(parts[1..], c)
  }

  /** Splitting and joining again gives the text back. */
  lemma {:induction false} SplitJoin(s: string, c: char)
    ensures Join(Split(s, c), c) == s
    decreases |s|
  {
    var k := IndexOf(s, c, 0);
    if k != -1 {
      SplitJoin(s[k + 1..], c);
      SplitJoinStep(s, c, k);
    }
  }

  /** The text before the first `c` in front of a tail that joins back. */
  lemma SplitJoinStep(s: string, c: char, k: int)
    requires k == IndexOf(s, c, 0) && k != -1
    requires Join(Split(s[k + 1..], c), c) == s[k + 1..]
    ensures Join(Split(s, c), c) == s
  {
    SplitAround(s, k);
    var tail := Split(s[k + 1..], c);
    assert Split(s, c) == [s[..k]] + tail;
    hide Split;
    var parts := [s[..k]] + tail;
    assert parts[0] == s[..k] && parts[1..] == tail;
    assert Join(parts, c) == s[..k] + [c] + Join(tail, c);
  }

  /** Joining parts free of `c` and splitting again gives the parts back. */
  lemma {:induction false} JoinSplit(parts: seq<string>, c: char)
    requires |parts| >= 1 && forall j :: 0 <= j < |parts| ==> c !in parts[j]
    ensures Split(Join(parts, c), c) == parts
  {
    if |parts| == 1 {
      var p := parts[0];
      assert forall j :: 0 <= j < |p| ==> p[j] != c;
      assert IndexOf(p, c, 0) == -1;
    } else {
      JoinSplit(parts[1..], c);
      JoinSplitStep(parts[0], parts[1..], c);
      assert [parts[0]] + parts[1..] == parts;
    }
  }

  /** A part free of `c` in front of parts that split back. */
  lemma JoinSplitStep(p: string, ps: seq<string>, c: char)
    requires |ps| >= 1 && c !in p && Split(Join(ps, c), c) == ps
    ensures Split(Join([p] + ps, c), c) == [p] + ps
  {
    var rest := Join(ps, c);
    var s := p + [c] + rest;
    assert ([p] + ps)[1..] == ps;
    assert Join([p] + ps, c) == s;
    assert forall j :: 0 <= j < |p| ==> s[j] == p[j] && p[j] != c;
    assert s[|p|] == c;
    IndexOfFirst(s, c, |p|);
    assert s[..|p|] == p;
    assert s[|p| + 1..] == rest;
    hide Join, IndexOf;
    SplitCons(s, c, |p|);
  }

  /** Splitting at the first occurrence of `c`, found at `k`. */
  lemma SplitCons(s: string, c: char, k: int)
    requires k == IndexOf(s, c, 0) && k != -1
    ensures Split(s, c) == [s[..k]] + Split(s[k + 1..], c)
  {
  }

  /** The first occurrence of `c` is found. */
  lemma IndexOfFirst(s: string, c: char, k: nat)
    requires k < |s| && s[k] == c && forall j :: 0 <= j < k ==> s[j] != c
    ensures IndexOf(s, c, 0) == k
  {
    var r := IndexOf(s, c, 0);
    assert r != -1;
    assert !(r < k) && !(k < r);
  }

  // ---------------------------------------------------------------------------
  // The common directory (`resolve_inputs`)

  /** The parts of an absolute path after its leading `/`. */
  function Parts(path: string): (ps: seq<string>)
    requires |path| >= 1
    ensures |ps| >= 1
  {
    Split(path[1..], '/')
  }

  /** The directory segments of an absolute path: its parts without the final file component. */
  function Dirs(path: string): seq<string>
    requires |path| >= 1
  {
    Parts(path)[..|Parts(path)| - 1]
  }

  /** The length of the longest common leading run of `a` and `b`. */
  function CommonRun(a: seq<string>, b: seq<string>): (n: nat)
    ensures n <= |a| && n <= |b| && a[..n] == b[..n]
    ensures n < |a| && n < |b| ==> a[n] != b[n]
  {
    if a == [] || b == [] || a[0] != b[0] then 0
    else
      var n := 1 + CommonRun(a[1..], b[1..]);
      assert a[..n] == [a[0]] + a[1..][..n - 1];
      assert b[..n] == [b[0]] + b[1..][..n - 1];
      n
  }

  /** A run agreeing on `k` positions that stops at `k` is the common run. */
  lemma CommonRunAt(a: seq<string>, b: seq<string>, k: nat)
    requires k <= |a| && k <= |b| && a[..k] == b[..k]
    requires k == |a| || k == |b| || a[k] != b[k]
    ensures CommonRun(a, b) == k
  {
    var n := CommonRun(a, b);
    if n < k {
      assert false;
    } else if n > k {
      assert false;
    }
  }

  /** An absolute path: what `realpath` returns. */
  predicate Absolute(path: string)
  {
    |path| >= 1 && path[0] == '/'
  }

  /** The paths are absolute for every input without a module. */
  predicate Resolvable(inputs: seq<Input>, resolved: seq<string>)
  {
    |resolved| == |inputs| && forall i :: 0 <= i < |inputs| && inputs[i].modulePath.None? ==> Absolute(resolved[i])
  }

  /**
   * The common directory run over inputs `0` to `n - 1`: the directories of
   * the first input without a module, cut to what each later one shares.
   */
  function Run(inputs: seq<Input>, resolved: seq<string>, n: nat): (run: Option<seq<string>>)
    requires Resolvable(inputs, resolved) && n <= |inputs|
  {
    if n == 0 then None
    else
      var before := Run(inputs, resolved, n - 1);
      if inputs[n - 1].modulePath.Some? then before
      else if before.None? then Some(Dirs(resolved[n - 1]))
      else Some(before.value[..CommonRun(before.value, Dirs(resolved[n - 1]))])
  }

  /** The common run as a plain sequence, empty when every input names its module. */
  function CommonDirs(inputs: seq<Input>, resolved: seq<string>): seq<string>
    requires Resolvable(inputs, resolved)
  {
    var run := Run(inputs, resolved, |inputs|);
    if run.None? then [] else run.value
  }

  /** The run is a leading run of the directories of every input without a module. */
  lemma {:induction false} RunIsCommon(inputs: seq<Input>, resolved: seq<string>, n: nat)
    requires Resolvable(inputs, resolved) && n <= |inputs|
    ensures forall i :: 0 <= i < n && inputs[i].modulePath.None? ==>
      Run(inputs, resolved, n).Some? && Run(inputs, resolved, n).value <= Dirs(resolved[i])
  {
    if n > 0 {
      RunIsCommon(inputs, resolved, n - 1);
      var before := Run(inputs, resolved, n - 1);
      if inputs[n - 1].modulePath.None? && before.Some? {
        var d := Dirs(resolved[n - 1]);
        var c := CommonRun(before.value, d);
        forall i | 0 <= i < n - 1 && inputs[i].modulePath.None?
          ensures before.value[..c] <= Dirs(resolved[i])
        {
          PrefixOfPrefix(before.value[..c], before.value, Dirs(resolved[i]));
        }
      }
    }
  }

  lemma PrefixOfPrefix(a: seq<string>, b: seq<string>, c: seq<string>)
    requires a <= b && b <= c
    ensures a <= c
  {
  }

  /** Any run shared by every input without a module is a leading run of the common one. */
  lemma {:induction false} RunIsLongest(inputs: seq<Input>, resolved: seq<string>, n: nat, r: seq<string>)
    requires Resolvable(inputs, resolved) && n <= |inputs|
    requires forall i :: 0 <= i < n && inputs[i].modulePath.None? ==> r <= Dirs(resolved[i])
    requires Run(inputs, resolved, n).Some?
    ensures r <= Run(inputs, resolved, n).value
  {
    var before := Run(inputs, resolved, n - 1);
    var run := Run(inputs, resolved, n);
    if inputs[n - 1].modulePath.Some? {
      assert run == before;
      hide Run, Dirs;
      RunIsLongest(inputs, resolved, n - 1, r);
    } else if before.Some? {
      var d := Dirs(resolved[n - 1]);
      assert run == Some(before.value[..CommonRun(before.value, d)]);
      assert r <= d;
      hide Run, Dirs, CommonRun;
      RunIsLongest(inputs, resolved, n - 1, r);
      PrefixOfCommon(r, before.value, d);
    } else {
      assert r <= Dirs(resolved[n - 1]);
    }
  }

  /** A leading run of both sequences is a leading run of their common run. */
  lemma PrefixOfCommon(r: seq<string>, a: seq<string>, b: seq<string>)
    requires r <= a && r <= b
    ensures r <= a[..CommonRun(a, b)]
  {
    var n := CommonRun(a, b);
    if |r| > n {
      assert false;
    }
  }

  /** The sum of the segments' lengths. */
  function SumLengths(segs: seq<string>): nat
  {
    if segs == [] then 0 else SumLengths(segs[..|segs| - 1]) + |segs[|segs| - 1]|
  }

  /** `1 + Σ(len(seg) + 1)`: how much of each path the common directory takes. */
  function PrefixLength(segs: seq<string>): nat
  {
    1 + |segs| + SumLengths(segs)
  }

  /** The common directory as a path: `/`, then each segment followed by `/`. */
  function DirPath(segs: seq<string>): string
  {
    if segs == [] then "/" else DirPath(segs[..|segs| - 1]) + segs[|segs| - 1] + "/"
  }

  /** The prefix length is the length of the common directory path. */
  lemma {:induction false} PrefixIsDirPath(segs: seq<string>)
    ensures |DirPath(segs)| == PrefixLength(segs)
  {
    if segs != [] {
      PrefixIsDirPath(segs[..|segs| - 1]);
    }
  }

  /** The common directory path of a leading run of a path's directories begins that path. */
  lemma DirPathBegins(path: string, k: nat)
    requires Absolute(path) && k <= |Dirs(path)|
    ensures DirPath(Dirs(path)[..k]) <= path
  {
    var ps := Parts(path);
    SplitJoin(path[1..], '/');
    assert path == "/" + Join(ps, '/');
    JoinBegins(ps, k);
    assert Dirs(path)[..k] == ps[..k];
  }

  /** `/` followed by the parts joined with `/` begins with the path of its first `k` parts. */
  lemma {:induction false} JoinBegins(ps: seq<string>, k: nat)
    requires |ps| >= 1 && k < |ps|
    ensures DirPath(ps[..k]) <= "/" + Join(ps, '/')
    decreases k
  {
    if k > 0 {
      JoinBegins(ps, k - 1);
      assert ps[..k][..k - 1] == ps[..k - 1];
      var d := DirPath(ps[..k - 1]);
      JoinAt(ps, k - 1);
      assert d + ps[k - 1] + "/" <= "/" + Join(ps, '/') by {
        var whole := "/" + Join(ps, '/');
        assert whole == d + (Join(ps[k - 1..], '/'));
        assert Join(ps[k - 1..], '/') == ps[k - 1] + "/" + Join(ps[k..], '/');
        assert whole == d + ps[k - 1] + "/" + Join(ps[k..], '/');
      }
    }
  }

  /** The whole path is the path of the first `k` parts followed by the rest joined with `/`. */
  lemma {:induction false} JoinAt(ps: seq<string>, k: nat)
    requires |ps| >= 1 && k < |ps|
    ensures "/" + Join(ps, '/') == DirPath(ps[..k]) + Join(ps[k..], '/')
    decreases k
  {
    if k > 0 {
      JoinAt(ps, k - 1);
      assert ps[..k][..k - 1] == ps[..k - 1];
      assert ps[k - 1..][1..] == ps[k..];
      assert Join(ps[k - 1..], '/') == ps[k - 1] + [('/')] + Join(ps[k..], '/');
    }
  }

  /** The common directory path begins the resolved path of every input without a module. */
  lemma CommonDirsBegin(inputs: seq<Input>, resolved: seq<string>, i: nat)
    requires Resolvable(inputs, resolved) && i < |inputs| && inputs[i].modulePath.None?
    ensures DirPath(CommonDirs(inputs, resolved)) <= resolved[i]
    ensures PrefixLength(CommonDirs(inputs, resolved)) <= |resolved[i]|
  {
    RunIsCommon(inputs, resolved, |inputs|);
    var run := CommonDirs(inputs, resolved);
    var d := Dirs(resolved[i]);
    assert run == d[..|run|];
    DirPathBegins(resolved[i], |run|);
    PrefixIsDirPath(run);
  }

  // ---------------------------------------------------------------------------
  // Mangling

  /** A trailing `.nas` is removed, from names of at least four characters. */
  function StripNas(rel: string): string
  {
    if |rel| >= 4 && rel[|rel| - 4..] == ".nas" then rel[..|rel| - 4] else rel
  }

  /** `/` becomes `.`, any other character that is not alphanumeric or `_` becomes `_`. */
  function MangleChar(c: char): char
  {
    if c == '/' then '.' else if !IsAlnum(c) && c != '_' then '_' else c
  }

  /** The mangled name, character by character. */
  function Mangle(s: string): (r: string)
    ensures |r| == |s|
  {
    seq(|s|, i requires 0 <= i < |s| => MangleChar(s[i]))
  }

  /**
   * Every character of a mangled name is a module character, and it is a dot
   * exactly where the path had a `/`.
   */
  lemma MangleShape(s: string)
    ensures forall i :: 0 <= i < |s| ==> ModuleChar(Mangle(s)[i]) && (Mangle(s)[i] == '.' <==> s[i] == '/')
  {
  }

  /**
   * A relative path without an empty segment (no `//`, no `/` at either end)
   * mangles to a module that `parse_inputs` would accept.
   */
  lemma MangleValid(s: string)
    requires forall i :: 0 < i < |s| ==> !(s[i - 1] == '/' && s[i] == '/')
    requires |s| > 1 ==> s[|s| - 1] != '/'
    ensures ValidModule(Mangle(s))
  {
    MangleShape(s);
  }

  /** The in-place rewrite of `resolve_inputs`. */
  method MangleInPlace(s: string) returns (r: string)
    ensures r == Mangle(s)
  {
    r := s;
    var j := 0;
    while j < |r|
      invariant 0 <= j <= |r| == |s|
      invariant forall k :: 0 <= k < j ==> r[k] == MangleChar(s[k])
      invariant r[j..] == s[j..]
    {
      assert r[j] == r[j..][0];
      if r[j] == '/' {
        r := r[j := '.'];
      } else if !IsAlnum(r[j]) && r[j] != '_' {
        r := r[j := '_'];
      }
      j := j + 1;
    }
  }

  /** The module an input without one gets: its path after the common directory, stripped and mangled. */
  function ResolvedModule(path: string, prefix: nat): string
    requires prefix <= |path|
  {
    Mangle(StripNas(path[prefix..]))
  }

  /**
   * `resolve_inputs`: the common directory run across the inputs without a
   * module, its prefix length, and the module each of them then gets.
   */
  method ResolveInputs(inputs: seq<Input>, resolved: seq<string>) returns (out: seq<Input>)
    requires Resolvable(inputs, resolved)
    ensures |out| == |inputs|
    ensures forall i :: 0 <= i < |inputs| ==>
      out[i].file == inputs[i].file
      && (inputs[i].modulePath.Some? ==> out[i] == inputs[i])
      && (inputs[i].modulePath.None? ==>
            PrefixLength(CommonDirs(inputs, resolved)) <= |resolved[i]|
            && out[i].modulePath == Some(ResolvedModule(resolved[i], PrefixLength(CommonDirs(inputs, resolved)))))
  {
    var run := CommonRunOf(inputs, resolved);
    var prefix := PrefixOf(run);
    hide ResolvedModule, CommonDirs, PrefixLength;
    out := [];
    for i := 0 to |inputs|
      invariant |out| == i
      invariant forall k :: 0 <= k < i ==>
        out[k].file == inputs[k].file
        && (inputs[k].modulePath.Some? ==> out[k] == inputs[k])
        && (inputs[k].modulePath.None? ==>
              prefix <= |resolved[k]| && out[k].modulePath == Some(ResolvedModule(resolved[k], prefix)))
    {
      var r := ResolveOne(inputs, resolved, i, prefix);
      out := out + [r];
    }
  }

  /** One turn of the last loop of `resolve_inputs`: an input without a module gets its resolved module. */
  method ResolveOne(inputs: seq<Input>, resolved: seq<string>, i: nat, prefix: nat) returns (r: Input)
    requires Resolvable(inputs, resolved) && i < |inputs| && prefix == PrefixLength(CommonDirs(inputs, resolved))
    ensures r.file == inputs[i].file
    ensures inputs[i].modulePath.Some? ==> r == inputs[i]
    ensures inputs[i].modulePath.None? ==> prefix <= |resolved[i]| && r.modulePath == Some(ResolvedModule(resolved[i], prefix))
  {
    if inputs[i].modulePath.None? {
      CommonDirsBegin(inputs, resolved, i);
      var m := MangleInPlace(StripNas(resolved[i][prefix..]));
      r := inputs[i].(modulePath := Some(m));
    } else {
      r := inputs[i];
    }
  }

  /** The first loop of `resolve_inputs`: the segments of the first path, cut down by each later one. */
  method CommonRunOf(inputs: seq<Input>, resolved: seq<string>) returns (run: seq<string>)
    requires Resolvable(inputs, resolved)
    ensures run == CommonDirs(inputs, resolved)
  {
    var segments: seq<string> := [];
    var n := 0;
    var seen := false;
    for i := 0 to |inputs|
      invariant 0 <= n <= |segments|
      invariant seen <==> Run(inputs, resolved, i).Some?
      invariant seen ==> segments[..n] == Run(inputs, resolved, i).value
      invariant !seen ==> n == 0
    {
      if inputs[i].modulePath.None? {
        var parts := Parts(resolved[i]);
        if !seen {
          segments := parts;
          n := |parts| - 1;
          seen := true;
        } else {
          var k := 0;
          while k < |parts| - 1
            invariant 0 <= k <= |parts| - 1 && k <= n
            invariant segments[..k] == parts[..k]
          {
            if n <= k || segments[k] != parts[k] {
              break;
            }
            k := k + 1;
          }
          assert segments[..n][..k] == segments[..k];
          assert Dirs(resolved[i])[..k] == parts[..k];
          CommonRunAt(segments[..n], Dirs(resolved[i]), k);
          n := k;
        }
      }
    }
    run := segments[..n];
  }

  /** The prefix loop of `resolve_inputs`: one plus the number of segments plus their lengths. */
  method PrefixOf(run: seq<string>) returns (prefix: nat)
    ensures prefix == PrefixLength(run)
    ensures prefix == |DirPath(run)|
  {
    prefix := 1 + |run|;
    for i := 0 to |run|
      invariant prefix == 1 + |run| + SumLengths(run[..i])
    {
      assert run[..i + 1][..i] == run[..i];
      prefix := prefix + |run[i]|;
    }
    assert run[..|run|] == run;
    PrefixIsDirPath(run);
  }
}
