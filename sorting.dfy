/**
 * Ordering by name, the order `qsort` establishes with the comparators
 * `comp_module` and `comp_item`: `strcmp` of the two names.  `SortByKey` is
 * the reference sort on sequences; `Util.List.Sort` sorts the list's array in
 * place against the same predicates.
 */
module Sorting {
  import opened Strings

  /** Every earlier element's key is `strcmp`-below or equal to every later one's. */
  ghost predicate SortedBy<T>(s: seq<T>, key: T -> string)
  {
    forall i, j :: 0 <= i < j < |s| ==> StrLe(key(s[i]), key(s[j]))
  }

  /** Only neighbours are compared. */
  ghost predicate AdjacentSortedBy<T>(s: seq<T>, key: T -> string)
  {
    forall i :: 0 < i < |s| ==> StrLe(key(s[i - 1]), key(s[i]))
  }

  /** Sortedness of neighbours extends to all pairs, because `strcmp` order is transitive. */
  lemma {:induction false} AdjacentSortedIsSorted<T>(s: seq<T>, key: T -> string)
    requires AdjacentSortedBy(s, key)
    ensures SortedBy(s, key)
  {
    if |s| > 1 {
      AdjacentSortedIsSorted(s[1..], key);
      forall j | 1 <= j < |s| ensures StrLe(key(s[0]), key(s[j])) {
        if j > 1 {
          assert StrLe(key(s[1..][0]), key(s[1..][j - 1]));
          StrLeTransitive(key(s[0]), key(s[1]), key(s[j]));
        }
      }
      forall i, j | 0 <= i < j < |s| ensures StrLe(key(s[i]), key(s[j])) {
        if i > 0 {
          assert StrLe(key(s[1..][i - 1]), key(s[1..][j - 1]));
        }
      }
    }
  }

  /** Inserts `x` in front of the first element whose key is not below `x`'s. */
  function InsertByKey<T>(x: T, s: seq<T>, key: T -> string): (r: seq<T>)
    ensures multiset(r) == multiset(s) + multiset{x}
    ensures |r| == |s| + 1
  {
    if s == [] || StrLe(key(x), key(s[0])) then [x] + s
    else
      assert s == [s[0]] + s[1..];
      [s[0]] + InsertByKey(x, s[1..], key)
  }

  /** Insertion sort by key. */
  function SortByKey<T>(s: seq<T>, key: T -> string): (r: seq<T>)
    ensures multiset(r) == multiset(s)
    ensures |r| == |s|
  {
    if s == [] then []
    else
      assert s == [s[0]] + s[1..];
      InsertByKey(s[0], SortByKey(s[1..], key), key)
  }

  lemma {:induction false} InsertKeepsSorted<T>(x: T, s: seq<T>, key: T -> string)
    requires AdjacentSortedBy(s, key)
    ensures AdjacentSortedBy(InsertByKey(x, s, key), key)
    ensures s != [] && InsertByKey(x, s, key)[0] != x ==> InsertByKey(x, s, key)[0] == s[0]
  {
    if s != [] && !StrLe(key(x), key(s[0])) {
      InsertKeepsSorted(x, s[1..], key);
      StrLeTotal(key(x), key(s[0]));
      var r := InsertByKey(x, s, key);
      var t := InsertByKey(x, s[1..], key);
      assert r == [s[0]] + t;
      forall i | 0 < i < |r| ensures StrLe(key(r[i - 1]), key(r[i])) {
        if i == 1 {
          if t[0] != x {
            assert t[0] == s[1];
          }
        } else {
          assert r[i - 1] == t[i - 2] && r[i] == t[i - 1];
        }
      }
    }
  }

  /** The reference sort leaves its result ordered by key. */
  lemma {:induction false} SortByKeySorted<T>(s: seq<T>, key: T -> string)
    ensures SortedBy(SortByKey(s, key), key)
  {
    SortByKeyAdjacentSorted(s, key);
    AdjacentSortedIsSorted(SortByKey(s, key), key);
  }

  lemma {:induction false} SortByKeyAdjacentSorted<T>(s: seq<T>, key: T -> string)
    ensures AdjacentSortedBy(SortByKey(s, key), key)
  {
    if s != [] {
      SortByKeyAdjacentSorted(s[1..], key);
      InsertKeepsSorted(s[0], SortByKey(s[1..], key), key);
    }
  }

  /** Sorting an already ordered sequence changes nothing, so sorting twice is sorting once. */
  lemma {:induction false} SortSortedIsIdentity<T>(s: seq<T>, key: T -> string)
    requires SortedBy(s, key)
    ensures SortByKey(s, key) == s
  {
    if s != [] {
      assert SortedBy(s[1..], key) by {
        forall i, j | 0 <= i < j < |s[1..]| ensures StrLe(key(s[1..][i]), key(s[1..][j])) {
          assert s[1..][i] == s[i + 1] && s[1..][j] == s[j + 1];
        }
      }
      SortSortedIsIdentity(s[1..], key);
      assert s == [s[0]] + s[1..];
    }
  }

  /** `f` applied to every element. */
  function MapSeq<T>(s: seq<T>, f: T -> T): (r: seq<T>)
    ensures |r| == |s|
  {
    if s == [] then [] else [f(s[0])] + MapSeq(s[1..], f)
  }

  lemma {:induction false} MapSeqAt<T>(s: seq<T>, f: T -> T, j: nat)
    requires j < |s|
    ensures MapSeq(s, f)[j] == f(s[j])
  {
    if j > 0 {
      MapSeqAt(s[1..], f, j - 1);
    }
  }

  lemma MapSeqCons<T>(x: T, s: seq<T>, f: T -> T)
    ensures MapSeq([x] + s, f) == [f(x)] + MapSeq(s, f)
  {
    assert ([x] + s)[1..] == s;
  }

  /** Inserting commutes with a map that keeps every key. */
  lemma {:induction false} InsertMapCommutes<T>(x: T, s: seq<T>, key: T -> string, f: T -> T)
    requires forall y :: key(f(y)) == key(y)
    ensures InsertByKey(f(x), MapSeq(s, f), key) == MapSeq(InsertByKey(x, s, key), f)
  {
    MapSeqCons(x, s, f);
    if s == [] {
    } else {
      var t := MapSeq(s, f);
      assert t == [f(s[0])] + MapSeq(s[1..], f);
      assert t[0] == f(s[0]) && t[1..] == MapSeq(s[1..], f);
      assert key(f(x)) == key(x) && key(f(s[0])) == key(s[0]);
      if !StrLe(key(x), key(s[0])) {
        InsertMapCommutes(x, s[1..], key, f);
        MapSeqCons(s[0], InsertByKey(x, s[1..], key), f);
      }
    }
  }

  /**
   * Sorting commutes with a map that keeps every key: sorting and then
   * transforming each element is transforming each and then sorting.
   */
  lemma {:induction false} SortMapCommutes<T>(s: seq<T>, key: T -> string, f: T -> T)
    requires forall y :: key(f(y)) == key(y)
    ensures SortByKey(MapSeq(s, f), key) == MapSeq(SortByKey(s, key), f)
  {
    if s != [] {
      SortMapCommutes(s[1..], key, f);
      assert MapSeq(s, f) == [f(s[0])] + MapSeq(s[1..], f);
      assert MapSeq(s, f)[1..] == MapSeq(s[1..], f);
      InsertMapCommutes(s[0], SortByKey(s[1..], key), key, f);
    }
  }

  /**
   * The state of one insertion pass: the element that started at position `i`
   * now sits at `j`; every other neighbouring pair up to `i` is ordered, and the
   * neighbours around the gap at `j` are ordered with each other.
   */
  ghost predicate InsertionPass<T>(s: seq<T>, i: int, j: int, key: T -> string)
  {
    && 0 <= j <= i < |s|
    && (forall k :: 0 < k <= i && k != j ==> StrLe(key(s[k - 1]), key(s[k])))
    && (0 < j < i ==> StrLe(key(s[j - 1]), key(s[j + 1])))
  }

  function SwapDown<T>(s: seq<T>, j: int): (r: seq<T>)
    requires 0 < j < |s|
    ensures multiset(r) == multiset(s) && |r| == |s|
  {
    s[j - 1 := s[j]][j := s[j - 1]]
  }

  lemma InsertionPassStart<T>(s: seq<T>, i: int, key: T -> string)
    requires 0 <= i < |s| && AdjacentSortedBy(s[..i], key)
    ensures InsertionPass(s, i, i, key)
  {
    forall k | 0 < k < i ensures StrLe(key(s[k - 1]), key(s[k])) {
      assert s[..i][k - 1] == s[k - 1] && s[..i][k] == s[k];
    }
  }

  /** Swapping an out-of-order element one place down keeps the pass invariant. */
  lemma InsertionPassSwap<T>(s: seq<T>, i: int, j: int, key: T -> string)
    requires InsertionPass(s, i, j, key) && 0 < j
    requires !StrLe(key(s[j - 1]), key(s[j]))
    ensures InsertionPass(SwapDown(s, j), i, j - 1, key)
  {
    StrLeTotal(key(s[j - 1]), key(s[j]));
  }

  /** A pass that stopped at the front or at an ordered pair has ordered the prefix up to `i`. */
  lemma InsertionPassDone<T>(s: seq<T>, i: int, j: int, key: T -> string)
    requires InsertionPass(s, i, j, key)
    requires j == 0 || StrLe(key(s[j - 1]), key(s[j]))
    ensures AdjacentSortedBy(s[..i + 1], key)
  {
    var t := s[..i + 1];
    forall k | 0 < k < |t| ensures StrLe(key(t[k - 1]), key(t[k])) {
      assert t[k - 1] == s[k - 1] && t[k] == s[k];
    }
  }
}
