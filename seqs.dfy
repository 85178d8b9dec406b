/** `Array.prototype.map`, `filter` and `find`, and how they treat reordered input. */
module Seqs {
  import opened Wrappers

  function MapSeq<T, U>(s: seq<T>, g: T -> U): (r: seq<U>)
    ensures |r| == |s| && forall i | 0 <= i < |s| :: r[i] == g(s[i])
  {
    if s == [] then [] else [g(s[0])] + MapSeq(s[1..], g)
  }

  /** Keeps, in order, exactly the elements that satisfy `p`. */
  function Filter<T>(s: seq<T>, p: T -> bool): (r: seq<T>)
    ensures |r| <= |s|
    ensures forall x | x in r :: x in s && p(x)
    ensures forall x | x in s && p(x) :: x in r
  {
    if s == [] then []
    else if p(s[0]) then [s[0]] + Filter(s[1..], p)
    else Filter(s[1..], p)
  }

  /** Filtering with a test every element passes changes nothing. */
  lemma {:induction false} FilterAll<T>(s: seq<T>, p: T -> bool)
    requires forall i | 0 <= i < |s| :: p(s[i])
    ensures Filter(s, p) == s
  {
    if s != [] {
      FilterAll(s[1..], p);
    }
  }

  /** Filtering with a test no element passes leaves nothing. */
  lemma {:induction false} FilterNone<T>(s: seq<T>, p: T -> bool)
    requires forall i | 0 <= i < |s| :: !p(s[i])
    ensures Filter(s, p) == []
  {
    if s != [] {
      FilterNone(s[1..], p);
    }
  }

  lemma {:induction false} MapAppend<T, U>(a: seq<T>, b: seq<T>, g: T -> U)
    ensures MapSeq(a + b, g) == MapSeq(a, g) + MapSeq(b, g)
  {
    if a == [] {
      assert a + b == b;
    } else {
      assert (a + b)[0] == a[0] && (a + b)[1..] == a[1..] + b;
      MapAppend(a[1..], b, g);
    }
  }

  lemma {:induction false} FilterAppend<T>(a: seq<T>, b: seq<T>, p: T -> bool)
    ensures Filter(a + b, p) == Filter(a, p) + Filter(b, p)
  {
    if a == [] {
      assert a + b == b;
    } else {
      assert (a + b)[1..] == a[1..] + b;
      FilterAppend(a[1..], b, p);
    }
  }

  /** Removing position `k` splits a sequence around it, so `x` can be cancelled. */
  lemma RemoveAt<T>(b: seq<T>, k: int)
    requires 0 <= k < |b|
    ensures b == b[..k] + [b[k]] + b[k + 1..]
    ensures multiset(b) == multiset(b[..k] + b[k + 1..]) + multiset{b[k]}
  {
    assert b == b[..k] + [b[k]] + b[k + 1..];
  }

  /** Mapping two reorderings of the same elements gives two reorderings of the same results. */
  lemma {:induction false} MapPermutation<T, U>(a: seq<T>, b: seq<T>, g: T -> U)
    requires multiset(a) == multiset(b)
    ensures multiset(MapSeq(a, g)) == multiset(MapSeq(b, g))
    decreases |a|
  {
    if a == [] {
      assert |b| == |multiset(b)| == 0;
    } else {
      var k := MatchFirst(a, b);
      var b' := b[..k] + b[k + 1..];
      MapPermutation(a[1..], b', g);
      assert MapSeq(a, g) == [g(a[0])] + MapSeq(a[1..], g);
      MapRemoveAt(b, k, g);
    }
  }

  /** The first element of `a` sits somewhere in its reordering `b`; the rest of `a`
      reorders `b` without that position. */
  lemma MatchFirst<T>(a: seq<T>, b: seq<T>) returns (k: int)
    requires a != [] && multiset(a) == multiset(b)
    ensures 0 <= k < |b| && b[k] == a[0]
    ensures multiset(a[1..]) == multiset(b[..k] + b[k + 1..])
  {
    assert a[0] in multiset(b);
    k :| 0 <= k < |b| && b[k] == a[0];
    RemoveAt(b, k);
    assert a == [a[0]] + a[1..];
    Cancel(multiset(a[1..]), multiset(b[..k] + b[k + 1..]), a[0]);
  }

  lemma MapRemoveAt<T, U>(b: seq<T>, k: int, g: T -> U)
    requires 0 <= k < |b|
    ensures multiset(MapSeq(b, g)) == multiset(MapSeq(b[..k] + b[k + 1..], g)) + multiset{g(b[k])}
  {
    MapAround(b, k, g);
    MapAppend(b[..k], b[k + 1..], g);
    MultisetMiddle(MapSeq(b[..k], g), g(b[k]), MapSeq(b[k + 1..], g));
  }

  lemma MapAround<T, U>(b: seq<T>, k: int, g: T -> U)
    requires 0 <= k < |b|
    ensures MapSeq(b, g) == MapSeq(b[..k], g) + ([g(b[k])] + MapSeq(b[k + 1..], g))
  {
    var front, back := b[..k], b[k + 1..];
    assert b == front + ([b[k]] + back);
    MapAppend(front, [b[k]] + back, g);
    MapCons(b[k], back, g);
  }

  lemma MapCons<T, U>(x: T, s: seq<T>, g: T -> U)
    ensures MapSeq([x] + s, g) == [g(x)] + MapSeq(s, g)
  {
    var t := [x] + s;
    assert t[0] == x && t[1..] == s;
  }

  lemma MultisetMiddle<T>(front: seq<T>, x: T, back: seq<T>)
    ensures multiset(front + ([x] + back)) == multiset(front + back) + multiset{x}
  {
  }

  /** Filtering two reorderings of the same elements gives two reorderings of the same result. */
  lemma FilterPermutation<T>(a: seq<T>, b: seq<T>, p: T -> bool)
    requires multiset(a) == multiset(b)
    ensures multiset(Filter(a, p)) == multiset(Filter(b, p))
  {
    var m, n := multiset(Filter(a, p)), multiset(Filter(b, p));
    forall z ensures m[z] == n[z] {
      FilterCount(a, p, z);
      FilterCount(b, p, z);
    }
    MultisetExt(m, n);
  }

  lemma MultisetExt<T>(m: multiset<T>, n: multiset<T>)
    requires forall z :: m[z] == n[z]
    ensures m == n
  {
  }

  /** Filtering keeps every copy of an element that passes and none of one that fails. */
  lemma {:induction false} FilterCount<T>(s: seq<T>, p: T -> bool, z: T)
    ensures multiset(Filter(s, p))[z] == if p(z) then multiset(s)[z] else 0
  {
    if s != [] {
      FilterCount(s[1..], p, z);
      assert multiset(s) == multiset{s[0]} + multiset(s[1..]) by {
        assert s == [s[0]] + s[1..];
      }
      if p(s[0]) {
        assert multiset(Filter(s, p)) == multiset{s[0]} + multiset(Filter(s[1..], p));
      }
    }
  }

  lemma Cancel<T>(m: multiset<T>, n: multiset<T>, x: T)
    requires multiset{x} + m == n + multiset{x}
    ensures m == n
  {
    forall z ensures m[z] == n[z] {
      assert (multiset{x} + m)[z] == (n + multiset{x})[z];
    }
  }

  /** `s.find(p)`: an element satisfying `p`, or nothing when none does. */
  function Find<T>(s: seq<T>, p: T -> bool): (r: Option<T>)
    ensures r.None? <==> forall i | 0 <= i < |s| :: !p(s[i])
    ensures r.Some? ==> r.value in s && p(r.value)
  {
    if s == [] then None
    else if p(s[0]) then Some(s[0])
    else Find(s[1..], p)
  }

  /** It is the first such element. */
  lemma {:induction false} FindFirst<T>(s: seq<T>, p: T -> bool, i: int)
    requires 0 <= i < |s| && p(s[i])
    requires forall j | 0 <= j < i :: !p(s[j])
    ensures Find(s, p) == Some(s[i])
  {
    if i > 0 {
      FindFirst(s[1..], p, i - 1);
    }
  }
}
