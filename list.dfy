/**
 * The `struct list` container and `astrndup`.
 *
 * A list holds `length` elements.  While `alloc` is 0 it keeps at most one
 * element directly in its `items` word (modelled by `inline`); from the second
 * push on, `items` points to an array of `alloc` slots (modelled by `slots`)
 * whose slot `length` is always the NULL sentinel.  The array grows by
 * doubling up to 64 slots and by 64 slots after that, and never shrinks.
 */
module Util {
  import opened Wrappers
  import opened Strings
  import Sorting

  const MaxAlloc: int := 64

  /** The allocation after one growth step (util.c:76). */
  function Grown(alloc: int): int
  {
    alloc + (if alloc < MaxAlloc then alloc else MaxAlloc)
  }

  /** The allocations the growth rule can produce, starting from 0 and then 4. */
  predicate ReachableAlloc(a: int)
  {
    a == 0 || a == 4 || a == 8 || a == 16 || a == 32 || (a >= 64 && a % 64 == 0)
  }

  /** What `list_iter` returns: the first non-NULL result of the callback, in list order. */
  function FirstSome<T, R(==)>(s: seq<T>, each: T -> Option<R>): (r: Option<R>)
    ensures r.None? <==> forall i :: 0 <= i < |s| ==> each(s[i]).None?
    ensures r.Some? ==> exists i :: 0 <= i < |s| && each(s[i]) == r &&
                                    forall j :: 0 <= j < i ==> each(s[j]).None?
  {
    if s == [] then None
    else if each(s[0]).Some? then each(s[0])
    else
      var r := FirstSome(s[1..], each);
      assert forall i :: 0 < i < |s| ==> s[i] == s[1..][i - 1];
      if r.Some? then
        var i :| 0 <= i < |s[1..]| && each(s[1..][i]) == r && forall j :: 0 <= j < i ==> each(s[1..][j]).None?;
        assert each(s[i + 1]) == r && forall j :: 0 <= j < i + 1 ==> each(s[j]).None?;
        r
      else r
  }

  /** `realloc` of a slot array to `n` slots: the old slots are copied, the new ones are NULL. */
  method Realloc<T>(a: array<Option<T>>, n: int) returns (b: array<Option<T>>)
    requires a.Length <= n
    ensures fresh(b) && b.Length == n
    ensures forall i :: 0 <= i < a.Length ==> b[i] == a[i]
  {
    b := new Option<T>[n](_ => None);
    forall i | 0 <= i < a.Length {
      b[i] := a[i];
    }
  }

  /** The raw `void*` that `list_get` can hand back: NULL, an element, or the list's own array. */
  datatype Word<T> = NullWord | ElemWord(elem: T) | ArrayWord

  class List<T> {
    var length: int
    var alloc: int
    var iter: int
    var inline: Option<T>
    var slots: array<Option<T>>

    /** The elements, in order. */
    ghost var Contents: seq<T>

    /** The representation invariant of `struct list`. */
    ghost predicate Valid()
      reads this, slots
    {
      && 0 <= length == |Contents|
      && ReachableAlloc(alloc)
      && (alloc == 0 ==> length <= 1 && inline == (if length == 1 then Some(Contents[0]) else None))
      && (alloc > 0 ==>
            && slots.Length == alloc
            && length < alloc
            && slots[length] == None
            && forall i :: 0 <= i < length ==> slots[i] == Some(Contents[i]))
    }

    /** `list_new`: an empty list in inline mode.  The cursor `iter` is left unset, as in the source. */
    constructor ()
      ensures Valid() && fresh(slots)
      ensures Contents == [] && alloc == 0
    {
      length := 0;
      alloc := 0;
      inline := None;
      slots := new Option<T>[0];
      Contents := [];
    }

    /** `list_length`. */
    function Length(): (n: int)
      reads this, slots
      requires Valid()
      ensures n == |Contents|
    {
      length
    }

    /** `list_get`, deciding inline mode by `alloc` as the rest of the list code does (see README, Findings). */
    function Get(index: int): (r: Option<T>)
      reads this, slots
      requires Valid() && 0 <= index
      ensures index >= |Contents| ==> r == None
      ensures index < |Contents| ==> r == Some(Contents[index])
    {
      if index >= length then None
      else if alloc == 0 then inline
      else slots[index]
    }

    /** `list_get` as written: a list of length 1 is read as if it were inline, whatever `alloc` is. */
    function GetAsWritten(index: int): (r: Word<T>)
      reads this, slots
      requires Valid() && 0 <= index
      ensures alloc > 0 && |Contents| == 1 && index == 0 ==> r == ArrayWord
      ensures !(alloc > 0 && |Contents| == 1) ==>
                r == (if index < |Contents| then ElemWord(Contents[index]) else NullWord)
    {
      if index >= length then NullWord
      else if length == 1 then (if alloc == 0 then ElemWord(inline.value) else ArrayWord)
      else ElemWord(slots[index].value)
    }

    /** `list_set`: replaces the element at `index` and returns the old one; NULL and no change out of range. */
    method Set(index: int, value: T) returns (previous: Option<T>)
      requires Valid() && 0 <= index
      modifies this, slots
      ensures Valid() && slots == old(slots) && alloc == old(alloc)
      ensures index >= old(|Contents|) ==> previous == None && Contents == old(Contents)
      ensures index < old(|Contents|) ==>
                previous == Some(old(Contents)[index]) && Contents == old(Contents)[index := value]
    {
      if index >= length {
        return None;
      }
      if alloc == 0 {
        previous := inline;
        inline := Some(value);
      } else {
        previous := slots[index];
        slots[index] := Some(value);
      }
      Contents := Contents[index := value];
    }

    /** `list_push`: appends `value`, switching to a 4-slot array on the second push and growing when full. */
    method Push(value: T)
      requires Valid()
      modifies this, slots
      ensures Valid()
      ensures Contents == old(Contents) + [value]
      ensures alloc == (if old(alloc) == 0 then (if old(length) == 0 then 0 else 4)
                        else if old(length) + 1 >= old(alloc) then Grown(old(alloc))
                        else old(alloc))
      ensures alloc != old(alloc) ==> fresh(slots)
      ensures alloc == old(alloc) ==> slots == old(slots)
    {
      length := length + 1;
      if alloc == 0 {
        if length == 1 {
          inline := Some(value);
          Contents := Contents + [value];
        } else {
          Spill(value);
        }
      } else {
        if length >= alloc {
          alloc := Grown(alloc);
          slots := Realloc(slots, alloc);
        }
        PutLast(value);
      }
    }

    /** The second push in inline mode: both elements move to a fresh 4-slot array. */
    method Spill(value: T)
      requires alloc == 0 && length == 2 && |Contents| == 1 && inline == Some(Contents[0])
      modifies this
      ensures Valid() && Contents == old(Contents) + [value]
      ensures alloc == 4 && length == 2 && fresh(slots)
    {
      var items := new Option<T>[4](_ => None);
      items[0] := inline;
      items[1] := Some(value);
      items[2] := None;
      alloc := 4;
      slots := items;
      inline := None;
      Contents := Contents + [value];
    }

    /** A push in array mode once `length` counts the new element and the array has room for it and the sentinel. */
    method PutLast(value: T)
      requires 1 <= length < alloc && slots.Length == alloc && ReachableAlloc(alloc)
      requires |Contents| == length - 1
      requires forall i :: 0 <= i < length - 1 ==> slots[i] == Some(Contents[i])
      modifies this, slots
      ensures Valid() && Contents == old(Contents) + [value]
      ensures slots == old(slots) && alloc == old(alloc) && length == old(length)
    {
      slots[length - 1] := Some(value);
      slots[length] := None;
      Contents := Contents + [value];
    }

    /** `list_pop`: removes and returns the last element; NULL and no change on an empty list. */
    method Pop() returns (r: Option<T>)
      requires Valid()
      modifies this, slots
      ensures Valid() && slots == old(slots) && alloc == old(alloc)
      ensures old(Contents) == [] ==> r == None && Contents == []
      ensures old(Contents) != [] ==>
                r == Some(old(Contents)[|old(Contents)| - 1]) &&
                Contents == old(Contents)[..|old(Contents)| - 1]
    {
      if length == 0 {
        return None;
      }
      length := length - 1;
      if alloc == 0 {
        r := inline;
        inline := None;
      } else {
        r := slots[length];
        slots[length] := None;
      }
      Contents := Contents[..length];
    }

    /** `list_iter`: the callback's first non-NULL result over the elements in order, or NULL. */
    method Iter<R(==)>(each: T -> Option<R>) returns (r: Option<R>)
      requires Valid()
      ensures r == FirstSome(Contents, each)
    {
      if alloc > 0 {
        var i := 0;
        while i < length
          invariant 0 <= i <= length
          invariant FirstSome(Contents, each) == FirstSome(Contents[i..], each)
        {
          assert Contents[i..][1..] == Contents[i + 1..];
          var ret := each(slots[i].value);
          if ret.Some? {
            return ret;
          }
          i := i + 1;
        }
        return None;
      } else if length == 1 {
        return each(inline.value);
      }
      return None;
    }

    /** `list_sort`: orders the elements by key in place; lists in inline mode or shorter than two are untouched. */
    method Sort(key: T -> string)
      requires Valid()
      modifies this, slots
      ensures Valid() && slots == old(slots) && alloc == old(alloc)
      ensures multiset(Contents) == multiset(old(Contents))
      ensures Sorting.SortedBy(Contents, key)
      ensures old(alloc) == 0 || old(|Contents|) < 2 ==> Contents == old(Contents)
    {
      if alloc > 0 && length > 1 {
        var i := 1;
        while i < length
          decreases length - i
          invariant Valid() && slots == old(slots) && alloc == old(alloc) && alloc > 0
          invariant 1 <= i <= length
          invariant multiset(Contents) == multiset(old(Contents))
          invariant Sorting.AdjacentSortedBy(Contents[..i], key)
        {
          SinkAt(i, key);
          i := i + 1;
        }
        assert Contents[..length] == Contents;
        Sorting.AdjacentSortedIsSorted(Contents, key);
      }
    }

    /** One insertion pass of `Sort`: moves the element at `i` down past every element whose key is above its own. */
    method SinkAt(i: int, key: T -> string)
      requires Valid() && alloc > 0 && 0 < i < |Contents|
      requires Sorting.AdjacentSortedBy(Contents[..i], key)
      modifies this, slots
      ensures Valid() && slots == old(slots) && alloc == old(alloc) && |Contents| == old(|Contents|)
      ensures multiset(Contents) == multiset(old(Contents))
      ensures Sorting.AdjacentSortedBy(Contents[..i + 1], key)
    {
      var j := i;
      Sorting.InsertionPassStart(Contents, i, key);
      while j > 0 && !StrLe(key(slots[j - 1].value), key(slots[j].value))
        invariant Valid() && slots == old(slots) && alloc == old(alloc) && |Contents| == old(|Contents|)
        invariant multiset(Contents) == multiset(old(Contents))
        invariant Sorting.InsertionPass(Contents, i, j, key)
      {
        Sorting.InsertionPassSwap(Contents, i, j, key);
        SwapDown(j);
        j := j - 1;
      }
      Sorting.InsertionPassDone(Contents, i, j, key);
    }

    /** Exchanges the elements at `j - 1` and `j`. */
    method SwapDown(j: int)
      requires Valid() && alloc > 0 && 0 < j < |Contents|
      modifies this, slots
      ensures Valid() && slots == old(slots) && alloc == old(alloc) && length == old(length)
      ensures Contents == Sorting.SwapDown(old(Contents), j)
    {
      slots[j - 1], slots[j] := slots[j], slots[j - 1];
      Contents := Sorting.SwapDown(Contents, j);
    }

    /** `list_iter_start`: resets the cursor and returns the first element, or NULL. */
    method IterStart() returns (r: Option<T>)
      requires Valid()
      modifies this`iter
      ensures iter == 0
      ensures r == (if Contents == [] then None else Some(Contents[0]))
    {
      iter := 0;
      r := if alloc > 0 then slots[0] else inline;
    }

    /**
     * `list_iter_next`: advances the cursor and returns the element it reaches, or NULL.
     * It does not advance in inline mode or when the list has at most one element.
     * The cursor must have been started by `IterStart`.
     */
    method IterNext() returns (r: Option<T>)
      requires Valid() && 0 <= iter
      modifies this`iter
      ensures alloc == 0 || |Contents| <= 1 ==> r == None && iter == old(iter)
      ensures alloc > 0 && |Contents| > 1 ==>
                iter == old(iter) + 1 &&
                r == (if iter < |Contents| then Some(Contents[iter]) else None)
    {
      if alloc == 0 || length <= 1 {
        return None;
      }
      iter := iter + 1;
      if iter >= length {
        return None;
      }
      return slots[iter];
    }

    /** `list_iter_continue`. */
    function IterContinue(): (b: bool)
      reads this, slots
      requires Valid()
      ensures b <==> iter < |Contents|
    {
      iter < length
    }
  }

  /** Push followed by pop restores the list and returns the pushed value. */
  method PushThenPop<T>(l: List<T>, x: T) returns (r: Option<T>)
    requires l.Valid()
    modifies l, l.slots
    ensures l.Valid() && l.Contents == old(l.Contents) && r == Some(x)
  {
    l.Push(x);
    r := l.Pop();
  }

  /** A list whose second element was popped again still reports alloc 4 and length 1. */
  method GetAfterPushPushPop<T>(x: T, y: T) returns (w: Word<T>, expected: Option<T>)
    ensures w == ArrayWord && expected == Some(x)
  {
    var l := new List<T>();
    l.Push(x);
    l.Push(y);
    var popped := l.Pop();
    w := l.GetAsWritten(0);
    expected := l.Get(0);
  }

  /**
   * `astrndup`: a fresh copy of at most `length` characters of `src`,
   * stopping early at a NUL, as `strncpy` plus the terminator do.
   */
  method Astrndup(src: string, length: nat) returns (r: string)
    ensures |r| <= length && |r| <= |src| && r == src[..|r|]
    ensures '\0' !in r
    ensures |r| < length && |r| < |src| ==> src[|r|] == '\0'
  {
    r := [];
    var i := 0;
    while i < length && i < |src| && src[i] != '\0'
      invariant 0 <= i <= length && i <= |src| && r == src[..i]
      invariant '\0' !in r
    {
      r := r + [src[i]];
      i := i + 1;
    }
  }
}
