/**
 * A stable sort by a string key under JavaScript's `<` on strings, as both
 * `Array.prototype.sort` call sites of the core use it (object keys in the
 * serializer, URLs in the curated list).
 */
module Sorting {
  import opened Strings
  import opened Seqs

  /** No element is followed by one with a smaller key. */
  predicate SortedBy<T>(s: seq<T>, key: T -> string)
  {
    forall i, j | 0 <= i < j < |s| :: !Less(key(s[j]), key(s[i]))
  }

  /** Every element is strictly below its successors: sorted and no key repeats. */
  predicate StrictlySortedBy<T>(s: seq<T>, key: T -> string)
  {
    forall i, j | 0 <= i < j < |s| :: Less(key(s[i]), key(s[j]))
  }

  predicate UniqueKeys<T>(s: seq<T>, key: T -> string)
  {
    forall i, j | 0 <= i < j < |s| :: key(s[i]) != key(s[j])
  }

  /** Inserts `x` after every element whose key is not greater than its own. */
  function Insert<T>(x: T, s: seq<T>, key: T -> string): (r: seq<T>)
    requires SortedBy(s, key)
    ensures multiset(r) == multiset(s) + multiset{x}
    ensures SortedBy(r, key)
  {
    if s == [] then [x]
    else if Less(key(x), key(s[0])) then
      InsertFront(x, s, key);
      [x] + s
    else
      var t := Insert(x, s[1..], key);
      InsertBehind(s[0], x, s[1..], t, key);
      assert s == [s[0]] + s[1..];
      [s[0]] + t
  }

  lemma InsertFront<T>(x: T, s: seq<T>, key: T -> string)
    requires SortedBy(s, key) && s != [] && Less(key(x), key(s[0]))
    ensures SortedBy([x] + s, key)
  {
    forall j | 0 <= j < |s|
      ensures !Less(key(s[j]), key(x))
    {
      if Less(key(s[j]), key(x)) {
        LessTransitive(key(s[j]), key(x), key(s[0]));
        LessIrreflexive(key(s[0]));
      }
    }
  }

  lemma InsertBehind<T>(h: T, x: T, s: seq<T>, t: seq<T>, key: T -> string)
    requires SortedBy([h] + s, key) && SortedBy(t, key) && !Less(key(x), key(h))
    requires multiset(t) == multiset(s) + multiset{x}
    ensures SortedBy([h] + t, key)
  {
    forall j | 0 <= j < |t|
      ensures !Less(key(t[j]), key(h))
    {
      assert t[j] in multiset(t);
      if t[j] != x {
        assert t[j] in multiset(s);
        var k :| 0 <= k < |s| && s[k] == t[j];
        assert ([h] + s)[0] == h && ([h] + s)[k + 1] == s[k];
      }
    }
  }

  /** Insertion sort: each element goes after the already sorted ones with an equal key. */
  function SortBy<T>(s: seq<T>, key: T -> string): (r: seq<T>)
    ensures multiset(r) == multiset(s)
    ensures SortedBy(r, key)
  {
    if s == [] then []
    else
      assert s == s[..|s| - 1] + [s[|s| - 1]];
      Insert(s[|s| - 1], SortBy(s[..|s| - 1], key), key)
  }

  lemma SortedUniqueIsStrict<T>(s: seq<T>, key: T -> string)
    requires SortedBy(s, key) && UniqueKeys(s, key)
    ensures StrictlySortedBy(s, key)
  {
    forall i, j | 0 <= i < j < |s|
      ensures Less(key(s[i]), key(s[j]))
    {
      LessTotal(key(s[i]), key(s[j]));
    }
  }

  lemma StrictIsSortedUnique<T>(s: seq<T>, key: T -> string)
    requires StrictlySortedBy(s, key)
    ensures SortedBy(s, key) && UniqueKeys(s, key)
  {
    forall i, j | 0 <= i < j < |s|
      ensures !Less(key(s[j]), key(s[i])) && key(s[i]) != key(s[j])
    {
      LessAsymmetric(key(s[i]), key(s[j]));
    }
  }

  /** Two strictly sorted orderings of the same elements are the same sequence: the
      order the sort produces does not depend on the order it was given. */
  lemma {:induction false} StrictlySortedDetermined<T>(a: seq<T>, b: seq<T>, key: T -> string)
    requires StrictlySortedBy(a, key) && StrictlySortedBy(b, key)
    requires multiset(a) == multiset(b)
    ensures a == b
    decreases |a|
  {
    if a == [] {
      assert |b| == |multiset(b)| == 0;
    } else {
      SameFirst(a, b, key);
      StrictTail(a, key);
      StrictTail(b, key);
      StrictlySortedDetermined(a[1..], b[1..], key);
      assert a == [a[0]] + a[1..] && b == [b[0]] + b[1..];
    }
  }

  /** Two strictly sorted orderings of the same elements start alike, and so do their rests. */
  lemma SameFirst<T>(a: seq<T>, b: seq<T>, key: T -> string)
    requires StrictlySortedBy(a, key) && StrictlySortedBy(b, key)
    requires multiset(a) == multiset(b) && a != []
    ensures b != [] && a[0] == b[0] && multiset(a[1..]) == multiset(b[1..])
  {
    assert |b| == |multiset(b)| == |multiset(a)| == |a|;
    var k := MatchFirst(a, b);
    var m := MatchFirst(b, a);
    if k != 0 {
      if m != 0 {
        LessAsymmetric(key(b[0]), key(b[k]));
      } else {
        LessIrreflexive(key(b[0]));
      }
    }
    assert b[..0] + b[1..] == b[1..];
  }

  /** Dropping the first element keeps a sequence strictly sorted. */
  lemma StrictTail<T>(s: seq<T>, key: T -> string)
    requires StrictlySortedBy(s, key) && s != []
    ensures StrictlySortedBy(s[1..], key)
  {
    forall i, j | 0 <= i < j < |s| - 1 ensures Less(key(s[1..][i]), key(s[1..][j])) {
      assert s[1..][i] == s[i + 1] && s[1..][j] == s[j + 1];
    }
  }

  /** Sorting elements whose keys are unique gives a strictly sorted sequence that depends
      only on the multiset of elements. */
  lemma SortByDeterminedByElements<T>(s: seq<T>, t: seq<T>, key: T -> string)
    requires UniqueKeys(s, key) && multiset(s) == multiset(t)
    ensures StrictlySortedBy(SortBy(s, key), key)
    ensures SortBy(s, key) == SortBy(t, key)
  {
    var a, b := SortBy(s, key), SortBy(t, key);
    UniqueKeysPermutation(s, a, key);
    UniqueKeysPermutation(s, b, key);
    SortedUniqueIsStrict(a, key);
    SortedUniqueIsStrict(b, key);
    StrictlySortedDetermined(a, b, key);
  }

  /** Unique keys survive any permutation. */
  lemma UniqueKeysPermutation<T>(s: seq<T>, p: seq<T>, key: T -> string)
    requires UniqueKeys(s, key) && multiset(s) == multiset(p)
    ensures UniqueKeys(p, key)
  {
    forall i, j | 0 <= i < j < |p|
      ensures key(p[i]) != key(p[j])
    {
      assert p[i] in multiset(s) && p[j] in multiset(s);
      var i' :| 0 <= i' < |s| && s[i'] == p[i];
      var j' :| 0 <= j' < |s| && s[j'] == p[j];
      if i' == j' {
        MultiplicityTwo(p, i, j);
        CountAtMostOne(s, i', key);
      }
    }
  }

  /** An element at two positions occurs at least twice. */
  lemma MultiplicityTwo<T>(p: seq<T>, i: int, j: int)
    requires 0 <= i < j < |p| && p[i] == p[j]
    ensures multiset(p)[p[i]] >= 2
  {
    assert p == p[..i] + [p[i]] + p[i + 1..j] + [p[j]] + p[j + 1..];
  }

  /** With unique keys no element repeats. */
  lemma CountAtMostOne<T>(s: seq<T>, i: int, key: T -> string)
    requires UniqueKeys(s, key) && 0 <= i < |s|
    ensures multiset(s)[s[i]] == 1
  {
    var x := s[i];
    assert s == s[..i] + [x] + s[i + 1..];
    forall k | 0 <= k < i ensures s[..i][k] != x {
      assert s[..i][k] == s[k];
    }
    var after := s[i + 1..];
    forall k | 0 <= k < |after| ensures after[k] != x {
      assert after[k] == s[i + 1 + k];
    }
    assert multiset(s[..i])[x] == 0 && multiset(after)[x] == 0;
  }

  /** Keeping some elements keeps the keys unique. */
  lemma {:induction false} UniqueKeysFilter<T>(s: seq<T>, p: T -> bool, key: T -> string)
    requires UniqueKeys(s, key)
    ensures UniqueKeys(Filter(s, p), key)
  {
    if s != [] {
      UniqueKeysFilter(s[1..], p, key);
      if p(s[0]) {
        var r := Filter(s, p);
        assert r == [s[0]] + Filter(s[1..], p);
        forall j | 0 < j < |r| ensures key(r[0]) != key(r[j]) {
          assert r[j] in s[1..];
          var k :| 0 <= k < |s[1..]| && s[1..][k] == r[j];
          assert s[k + 1] == r[j];
        }
      }
    }
  }
}
