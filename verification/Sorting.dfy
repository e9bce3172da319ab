/** std::sort as the code may rely on it: any permutation ordered by the key, ties in any order. */
module Sorting {
  predicate SortedBy<T(!new)>(key: T -> int, s: seq<T>)
  {
    forall i, j :: 0 <= i < j < |s| ==> key(s[i]) <= key(s[j])
  }

  predicate IsSorting<T(==,!new)>(key: T -> int, s: seq<T>, r: seq<T>)
  {
    |r| == |s| && multiset(r) == multiset(s) && SortedBy(key, r)
  }

  ghost function Insert<T(!new)>(key: T -> int, x: T, s: seq<T>): seq<T>
  {
    if s == [] || key(x) <= key(s[0]) then [x] + s else [s[0]] + Insert(key, x, s[1..])
  }

  lemma {:induction false} InsertSorts<T(!new)>(key: T -> int, x: T, s: seq<T>)
    requires SortedBy(key, s)
    ensures multiset(Insert(key, x, s)) == multiset(s) + multiset{x}
    ensures SortedBy(key, Insert(key, x, s)) && |Insert(key, x, s)| == |s| + 1
  {
    if s != [] && key(x) > key(s[0]) {
      var t := Insert(key, x, s[1..]);
      InsertSorts(key, x, s[1..]);
      assert s == [s[0]] + s[1..];
      forall j | 0 <= j < |t| ensures key(s[0]) <= key(t[j]) {
        assert t[j] in multiset(t);
        assert t[j] == x || t[j] in s[1..];
      }
    }
  }

  /** A sorting always exists, so std::sort always has something to return. */
  lemma {:induction false} SortingExists<T(!new)>(key: T -> int, s: seq<T>) returns (r: seq<T>)
    ensures IsSorting(key, s, r)
  {
    if s == [] {
      r := [];
    } else {
      var t := SortingExists(key, s[1..]);
      r := Insert(key, s[0], t);
      InsertSorts(key, s[0], t);
      assert s == [s[0]] + s[1..];
    }
  }

  /** The library call: which of the sortings comes back is not known. */
  method StdSort<T(==,!new)>(key: T -> int, s: seq<T>) returns (r: seq<T>)
    ensures IsSorting(key, s, r)
  {
    ghost var w := SortingExists(key, s);
    r :| IsSorting(key, s, r);
  }
}
