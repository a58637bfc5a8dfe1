/**
 * Character classes and the byte-string primitives of the C library that
 * the program relies on (`isalpha`, `isalnum`, `isblank`, `strspn`, `strcspn`,
 * `strchr`, `strcmp`), stated for the "C" locale.  Strings are the contents
 * of C strings, so a model string never holds the terminating NUL.
 */
module Strings {

  predicate IsAlpha(c: char) { 'a' <= c <= 'z' || 'A' <= c <= 'Z' }
  predicate IsDigit(c: char) { '0' <= c <= '9' }
  predicate IsAlnum(c: char) { IsAlpha(c) || IsDigit(c) }

  /** `isblank`: space and horizontal tab. */
  predicate IsBlank(c: char) { c == ' ' || c == '\t' }

  /** The separator set "\t\r\n " used by every `strspn`/`strcspn` of the marker parser. */
  predicate IsSep(c: char) { c == '\t' || c == '\r' || c == '\n' || c == ' ' }

  /** `strspn(s + i, "\t\r\n ")`, bounded by the end of `s`: the first index at or after `i` that is not a separator. */
  function SkipSeps(s: string, i: nat): (j: nat)
    requires i <= |s|
    ensures i <= j <= |s|
    ensures forall k :: i <= k < j ==> IsSep(s[k])
    ensures j < |s| ==> !IsSep(s[j])
    decreases |s| - i
  {
    if i == |s| || !IsSep(s[i]) then i else SkipSeps(s, i + 1)
  }

  /** `strcspn(s + i, "\t\r\n ")`, bounded by the end of `s`: the first index at or after `i` that is a separator. */
  function SkipWord(s: string, i: nat): (j: nat)
    requires i <= |s|
    ensures i <= j <= |s|
    ensures forall k :: i <= k < j ==> !IsSep(s[k])
    ensures j < |s| ==> IsSep(s[j])
    decreases |s| - i
  {
    if i == |s| || IsSep(s[i]) then i else SkipWord(s, i + 1)
  }

  /** `strspn(s + i, "\t ")`, bounded by the end of `s`: the first index at or after `i` that is not blank. */
  function SkipBlanks(s: string, i: nat): (j: nat)
    requires i <= |s|
    ensures i <= j <= |s|
    ensures forall k :: i <= k < j ==> IsBlank(s[k])
    ensures j < |s| ==> !IsBlank(s[j])
    decreases |s| - i
  {
    if i == |s| || !IsBlank(s[i]) then i else SkipBlanks(s, i + 1)
  }

  /** `strspn(s + i, "#")` style skip of one character, bounded by the end of `s`. */
  function SkipChar(s: string, i: nat, c: char): (j: nat)
    requires i <= |s|
    ensures i <= j <= |s|
    ensures forall k :: i <= k < j ==> s[k] == c
    ensures j < |s| ==> s[j] != c
    decreases |s| - i
  {
    if i == |s| || s[i] != c then i else SkipChar(s, i + 1, c)
  }

  /** The first index at or after `i` holding `c`, if any (`strchr`). */
  function IndexOf(s: string, c: char, i: nat): (r: int)
    requires i <= |s|
    ensures r == -1 || i <= r < |s|
    ensures r == -1 ==> forall k :: i <= k < |s| ==> s[k] != c
    ensures r >= 0 ==> s[r] == c && forall k :: i <= k < r ==> s[k] != c
    decreases |s| - i
  {
    if i == |s| then -1 else if s[i] == c then i else IndexOf(s, c, i + 1)
  }

  /** The text from `i` on is the text from `i` to `j`, then the text from `j` on. */
  lemma SliceSplit(s: string, i: nat, j: nat)
    requires i <= j <= |s|
    ensures s[i..] == s[i..j] + s[j..]
  {
  }

  /** A slice inside the second part of a concatenation is a slice of that part. */
  lemma SliceOfSecond(p: string, q: string, i: nat, j: nat)
    requires i <= j <= |q|
    ensures (p + q)[|p| + i..|p| + j] == q[i..j]
  {
  }

  /** The text is what precedes position `k`, the character there, and what follows it. */
  lemma SplitAround(s: string, k: nat)
    requires k < |s|
    ensures s == s[..k] + [s[k]] + s[k + 1..]
  {
  }

  /** The number of occurrences of `c` in `s`. */
  function Count(s: string, c: char): nat
  {
    if s == [] then 0 else (if s[0] == c then 1 else 0) + Count(s[1..], c)
  }

  lemma {:induction false} CountAppend(a: string, b: string, c: char)
    ensures Count(a + b, c) == Count(a, c) + Count(b, c)
  {
    if a == [] {
      assert a + b == b;
    } else {
      assert (a + b)[1..] == a[1..] + b;
      CountAppend(a[1..], b, c);
    }
  }

  lemma CountUnit(c: char)
    ensures Count([c], c) == 1
  {
    assert [c][1..] == [];
  }

  /** The count up to and past the first occurrence at `i` of `c`. */
  lemma CountFirst(s: string, start: nat, i: nat, c: char)
    requires start <= i < |s| && s[i] == c
    requires forall k :: start <= k < i ==> s[k] != c
    ensures Count(s[start..], c) == 1 + Count(s[i + 1..], c)
  {
    var a := s[start..i];
    var b := s[i + 1..];
    assert s[start..] == a + ([s[i]] + b);
    CountAbsent(a, c);
    CountAppend(a, [s[i]] + b, c);
    CountAppend([s[i]], b, c);
    CountUnit(s[i]);
  }

  lemma CountAbsent(s: string, c: char)
    requires forall k :: 0 <= k < |s| ==> s[k] != c
    ensures Count(s, c) == 0
  {
  }

  /**
   * `strcmp` on NUL-free strings: the sign of the first difference of character
   * codes, with a proper prefix ordered first.
   */
  function StrCmp(a: string, b: string): (r: int)
    ensures -1 <= r <= 1
  {
    if a == [] && b == [] then 0
    else if a == [] then -1
    else if b == [] then 1
    else if a[0] < b[0] then -1
    else if a[0] > b[0] then 1
    else StrCmp(a[1..], b[1..])
  }

  /** `strcmp(a, b) <= 0`. */
  predicate StrLe(a: string, b: string) { StrCmp(a, b) <= 0 }

  lemma {:induction false} StrCmpZeroIffEqual(a: string, b: string)
    ensures StrCmp(a, b) == 0 <==> a == b
  {
    if a != [] && b != [] && a[0] == b[0] {
      StrCmpZeroIffEqual(a[1..], b[1..]);
      assert a == [a[0]] + a[1..];
      assert b == [b[0]] + b[1..];
    }
  }

  lemma {:induction false} StrCmpAntisymmetric(a: string, b: string)
    ensures StrCmp(a, b) == -StrCmp(b, a)
  {
    if a != [] && b != [] && a[0] == b[0] {
      StrCmpAntisymmetric(a[1..], b[1..]);
    }
  }

  /** Any two names are ordered one way or the other. */
  lemma StrLeTotal(a: string, b: string)
    ensures StrLe(a, b) || StrLe(b, a)
  {
    StrCmpAntisymmetric(a, b);
  }

  lemma {:induction false} StrLeTransitive(a: string, b: string, c: string)
    requires StrLe(a, b) && StrLe(b, c)
    ensures StrLe(a, c)
  {
    if a != [] && b != [] && c != [] && a[0] == b[0] == c[0] {
      StrLeTransitive(a[1..], b[1..], c[1..]);
    }
  }

  /** A run of non-separators that a separator or the end of the text closes is what `SkipWord` skips. */
  lemma {:induction false} SkipWordRun(s: string, i: nat, j: nat)
    requires i <= j <= |s|
    requires forall k :: i <= k < j ==> !IsSep(s[k])
    requires j == |s| || IsSep(s[j])
    ensures SkipWord(s, i) == j
    decreases j - i
  {
    if i < j {
      SkipWordRun(s, i + 1, j);
    }
  }

  /** A run of separators that a non-separator or the end of the text closes is what `SkipSeps` skips. */
  lemma {:induction false} SkipSepsRun(s: string, i: nat, j: nat)
    requires i <= j <= |s|
    requires forall k :: i <= k < j ==> IsSep(s[k])
    requires j == |s| || !IsSep(s[j])
    ensures SkipSeps(s, i) == j
    decreases j - i
  {
    if i < j {
      SkipSepsRun(s, i + 1, j);
    }
  }

  /** Concatenation is associative. */
  lemma ConcatAssoc<T>(a: seq<T>, b: seq<T>, c: seq<T>)
    ensures (a + b) + c == a + (b + c)
  {
  }
}
