/** Sequences read as unordered collections, and the unique sorted arrangement of byte strings. */
module Sequences {
  import opened Binary

  /** The two sequences hold the same elements, each as often. */
  predicate Permuted<T(==)>(a: seq<T>, b: seq<T>) {
    multiset(a) == multiset(b)
  }

  function Map<A, B>(f: A -> B, s: seq<A>): (r: seq<B>)
    ensures |r| == |s|
    ensures forall i :: 0 <= i < |s| ==> r[i] == f(s[i])
  {
    seq(|s|, i requires 0 <= i < |s| => f(s[i]))
  }

  function Filter<T(!new)>(p: T -> bool, s: seq<T>): (r: seq<T>)
    ensures forall x :: x in r <==> x in s && p(x)
  {
    if |s| == 0 then []
    else
      assert s == [s[0]] + s[1..];
      (if p(s[0]) then [s[0]] else []) + Filter(p, s[1..])
  }

  function Without<T>(s: seq<T>, i: nat): (r: seq<T>)
    requires i < |s|
    ensures |r| == |s| - 1
  {
    s[..i] + s[i + 1..]
  }

  lemma WithoutMultiset<T>(s: seq<T>, i: nat)
    requires i < |s|
    ensures multiset(s) == multiset(Without(s, i)) + multiset{s[i]}
  {
    assert s == s[..i] + [s[i]] + s[i + 1..];
  }

  /** Taking one occurrence of an element from both sides changes nothing. */
  lemma PermutedWithout<T>(a: seq<T>, i: nat, b: seq<T>, j: nat)
    requires i < |a| && j < |b| && a[i] == b[j]
    ensures Permuted(a, b) <==> Permuted(Without(a, i), Without(b, j))
  {
    WithoutMultiset(a, i);
    WithoutMultiset(b, j);
    var ma, mb := multiset(Without(a, i)), multiset(Without(b, j));
    assert ma == multiset(a) - multiset{a[i]};
    assert mb == multiset(b) - multiset{a[i]};
  }

  lemma IndexOf<T>(s: seq<T>, x: T) returns (i: nat)
    requires x in multiset(s)
    ensures i < |s| && s[i] == x
  {
    assert x in s;
    i :| 0 <= i < |s| && s[i] == x;
  }

  lemma PermutedMembers<T>(a: seq<T>, b: seq<T>)
    requires Permuted(a, b)
    ensures |a| == |b|
    ensures forall x :: x in a <==> x in b
  {
    assert |multiset(a)| == |multiset(b)|;
    assert forall x :: x in a <==> x in multiset(a);
    assert forall x :: x in b <==> x in multiset(b);
  }

  /** Replacing equal elements by equal elements keeps permuted sequences permuted. */
  lemma PermutedUpdate<T>(a: seq<T>, i: nat, b: seq<T>, j: nat, x: T)
    requires i < |a| && j < |b| && a[i] == b[j]
    requires Permuted(a, b)
    ensures Permuted(a[i := x], b[j := x])
  {
    PermutedWithout(a, i, b, j);
    PermutedWithout(a[i := x], i, b[j := x], j);
    assert Without(a[i := x], i) == Without(a, i);
    assert Without(b[j := x], j) == Without(b, j);
  }

  lemma PermutedAppend<T>(a: seq<T>, b: seq<T>, x: T)
    requires Permuted(a, b)
    ensures Permuted(a + [x], b + [x])
  {
  }

  lemma {:induction false} MapPermuted<A, B>(f: A -> B, a: seq<A>, b: seq<A>)
    requires Permuted(a, b)
    ensures Permuted(Map(f, a), Map(f, b))
  {
    PermutedMembers(a, b);
    if |a| == 0 {
      assert Map(f, a) == [] && Map(f, b) == [];
    } else {
      var j := IndexOf(b, a[0]);
      PermutedWithout(a, 0, b, j);
      MapPermuted(f, Without(a, 0), Without(b, j));
      assert Map(f, Without(a, 0)) == Without(Map(f, a), 0);
      assert Map(f, Without(b, j)) == Without(Map(f, b), j);
      PermutedWithout(Map(f, a), 0, Map(f, b), j);
    }
  }

  /** If `f` tells the elements of `a` from those of `b`, equal images mean equal contents. */
  lemma {:induction false} MapReflectsPermuted<A, B>(f: A -> B, a: seq<A>, b: seq<A>)
    requires Permuted(Map(f, a), Map(f, b))
    requires forall x, y :: x in a && y in b && f(x) == f(y) ==> x == y
    ensures Permuted(a, b)
  {
    PermutedMembers(Map(f, a), Map(f, b));
    if |a| == 0 {
      assert a == [] && b == [];
    } else {
      var fa, fb := Map(f, a), Map(f, b);
      assert fa[0] in fa;
      var j := IndexOf(fb, fa[0]);
      assert a[0] in a && b[j] in b;
      PermutedWithout(fa, 0, fb, j);
      assert Map(f, Without(a, 0)) == Without(fa, 0);
      assert Map(f, Without(b, j)) == Without(fb, j);
      MapReflectsPermuted(f, Without(a, 0), Without(b, j));
      PermutedWithout(a, 0, b, j);
    }
  }

  lemma {:induction false} FilterMultiset<T(!new)>(p: T -> bool, s: seq<T>, x: T)
    ensures multiset(Filter(p, s))[x] == if p(x) then multiset(s)[x] else 0
  {
    if |s| > 0 {
      assert s == [s[0]] + s[1..];
      FilterMultiset(p, s[1..], x);
    }
  }

  lemma FilterPermuted<T(!new)>(p: T -> bool, a: seq<T>, b: seq<T>)
    requires Permuted(a, b)
    ensures Permuted(Filter(p, a), Filter(p, b))
  {
    forall x: T
      ensures multiset(Filter(p, a))[x] == multiset(Filter(p, b))[x]
    {
      FilterMultiset(p, a, x);
      FilterMultiset(p, b, x);
    }
  }

  // ---------------------------------------------------------------- sums

  function Sum<T>(f: T -> int, s: seq<T>): int {
    if |s| == 0 then 0 else f(s[0]) + Sum(f, s[1..])
  }

  lemma {:induction false} SumAppend<T>(f: T -> int, a: seq<T>, b: seq<T>)
    ensures Sum(f, a + b) == Sum(f, a) + Sum(f, b)
  {
    if |a| == 0 {
      assert a + b == b;
    } else {
      assert (a + b)[1..] == a[1..] + b;
      SumAppend(f, a[1..], b);
    }
  }

  lemma SumSnoc<T>(f: T -> int, s: seq<T>, x: T)
    ensures Sum(f, s + [x]) == Sum(f, s) + f(x)
  {
    SumAppend(f, s, [x]);
  }

  lemma CutAt<T>(s: seq<T>, i: nat)
    requires i < |s|
    ensures s == s[..i + 1] + s[i + 1..] && s[..i + 1] == s[..i] + [s[i]]
  {
  }

  /** A sum read around one of its terms. */
  lemma SumAround<T>(f: T -> int, s: seq<T>, i: nat)
    requires i < |s|
    ensures Sum(f, s[..i + 1]) == Sum(f, s[..i]) + f(s[i])
    ensures Sum(f, s) == Sum(f, s[..i]) + f(s[i]) + Sum(f, s[i + 1..])
  {
    CutAt(s, i);
    SumSnoc(f, s[..i], s[i]);
    SumAppend(f, s[..i + 1], s[i + 1..]);
  }

  lemma SumWithout<T>(f: T -> int, s: seq<T>, i: nat)
    requires i < |s|
    ensures Sum(f, s) == Sum(f, Without(s, i)) + f(s[i])
  {
    SumAround(f, s, i);
    SumAppend(f, s[..i], s[i + 1..]);
  }

  lemma SumUpdate<T>(f: T -> int, s: seq<T>, i: nat, x: T)
    requires i < |s|
    ensures Sum(f, s[i := x]) == Sum(f, s) - f(s[i]) + f(x)
  {
    SumWithout(f, s, i);
    SumWithout(f, s[i := x], i);
    assert Without(s[i := x], i) == Without(s, i);
  }

  lemma {:induction false} SumAtLeast<T>(f: T -> int, s: seq<T>, i: nat)
    requires forall x :: f(x) >= 0
    requires i < |s|
    ensures Sum(f, s) >= f(s[i])
  {
    SumWithout(f, s, i);
    SumNonNegative(f, Without(s, i));
  }

  lemma {:induction false} SumNonNegative<T>(f: T -> int, s: seq<T>)
    requires forall x :: f(x) >= 0
    ensures Sum(f, s) >= 0
  {
    if |s| > 0 {
      SumNonNegative(f, s[1..]);
    }
  }

  lemma {:induction false} SumPermuted<T>(f: T -> int, a: seq<T>, b: seq<T>)
    requires Permuted(a, b)
    ensures Sum(f, a) == Sum(f, b)
  {
    PermutedMembers(a, b);
    if |a| > 0 {
      var j := IndexOf(b, a[0]);
      PermutedWithout(a, 0, b, j);
      SumWithout(f, a, 0);
      SumWithout(f, b, j);
      SumPermuted(f, Without(a, 0), Without(b, j));
    }
  }

  // ---------------------------------------------------------------- sorting byte strings

  /** Lexicographic order, the `Ord` of byte arrays and of strings. */
  predicate LexLe(a: Bytes, b: Bytes) {
    |a| == 0 || (|b| > 0 && (a[0] < b[0] || (a[0] == b[0] && LexLe(a[1..], b[1..]))))
  }

  lemma {:induction false} LexTotal(a: Bytes, b: Bytes)
    ensures LexLe(a, b) || LexLe(b, a)
  {
    if |a| > 0 && |b| > 0 {
      LexTotal(a[1..], b[1..]);
    }
  }

  lemma {:induction false} LexAntisymmetric(a: Bytes, b: Bytes)
    requires LexLe(a, b) && LexLe(b, a)
    ensures a == b
  {
    if |a| > 0 {
      LexAntisymmetric(a[1..], b[1..]);
      assert a == [a[0]] + a[1..] && b == [b[0]] + b[1..];
    }
  }

  lemma {:induction false} LexTransitive(a: Bytes, b: Bytes, c: Bytes)
    requires LexLe(a, b) && LexLe(b, c)
    ensures LexLe(a, c)
  {
    if |a| > 0 && a[0] == b[0] && b[0] == c[0] {
      LexTransitive(a[1..], b[1..], c[1..]);
    }
  }

  predicate SortedLex(s: seq<Bytes>) {
    forall i, j :: 0 <= i < j < |s| ==> LexLe(s[i], s[j])
  }

  function Insert(x: Bytes, s: seq<Bytes>): (r: seq<Bytes>)
    requires SortedLex(s)
    ensures SortedLex(r)
    ensures multiset(r) == multiset(s) + multiset{x}
  {
    if |s| == 0 then [x]
    else if LexLe(x, s[0]) then
      assert forall j :: 0 <= j < |s| ==> LexLe(x, s[j]) by {
        forall j | 0 < j < |s| ensures LexLe(x, s[j]) { LexTransitive(x, s[0], s[j]); }
      }
      [x] + s
    else
      LexTotal(x, s[0]);
      var rest := Insert(x, s[1..]);
      assert s == [s[0]] + s[1..];
      assert forall j :: 0 <= j < |rest| ==> LexLe(s[0], rest[j]) by {
        forall j | 0 <= j < |rest| ensures LexLe(s[0], rest[j]) {
          assert rest[j] in multiset(rest);
          assert rest[j] == x || rest[j] in s[1..];
        }
      }
      [s[0]] + rest
  }

  /** `sort` on byte strings. */
  function SortLex(s: seq<Bytes>): (r: seq<Bytes>)
    ensures SortedLex(r)
    ensures Permuted(r, s)
  {
    if |s| == 0 then []
    else
      assert s == [s[0]] + s[1..];
      Insert(s[0], SortLex(s[1..]))
  }

  lemma SortedHead(a: seq<Bytes>, b: seq<Bytes>)
    requires SortedLex(a) && SortedLex(b)
    requires Permuted(a, b) && |a| > 0 && |b| > 0
    ensures a[0] == b[0]
  {
    PermutedMembers(a, b);
    assert a[0] in b && b[0] in a;
    var i :| 0 <= i < |a| && a[i] == b[0];
    var j :| 0 <= j < |b| && b[j] == a[0];
    if i > 0 && j > 0 {
      assert LexLe(a[0], a[i]) && LexLe(b[0], b[j]);
      LexAntisymmetric(a[0], b[0]);
    }
  }

  /** There is only one sorted arrangement of a collection. */
  lemma {:induction false} SortedUnique(a: seq<Bytes>, b: seq<Bytes>)
    requires SortedLex(a) && SortedLex(b)
    requires Permuted(a, b)
    ensures a == b
  {
    PermutedMembers(a, b);
    if |a| > 0 {
      SortedHead(a, b);
      PermutedWithout(a, 0, b, 0);
      WithoutFirst(a);
      WithoutFirst(b);
      SortedUnique(a[1..], b[1..]);
    }
  }

  lemma WithoutFirst<T>(s: seq<T>)
    requires |s| > 0
    ensures Without(s, 0) == s[1..] && s == [s[0]] + s[1..]
  {
  }

  /** Sorting forgets the order it was given, and nothing else. */
  lemma {:induction false} SortLexCanonical(a: seq<Bytes>, b: seq<Bytes>)
    ensures SortLex(a) == SortLex(b) <==> Permuted(a, b)
  {
    if Permuted(a, b) {
      SortedUnique(SortLex(a), SortLex(b));
    }
  }

  // ---------------------------------------------------------------- concatenation

  function Concat(s: seq<Bytes>): Bytes {
    if |s| == 0 then [] else s[0] + Concat(s[1..])
  }

  lemma {:induction false} ConcatSnoc(s: seq<Bytes>, x: Bytes)
    ensures Concat(s + [x]) == Concat(s) + x
  {
    if |s| > 0 {
      assert (s + [x])[1..] == s[1..] + [x];
      ConcatSnoc(s[1..], x);
    } else {
      assert s + [x] == [x];
      assert Concat([x]) == x + Concat([]);
    }
  }

  predicate AllDigests(s: seq<Bytes>) {
    forall i :: 0 <= i < |s| ==> |s[i]| == 32
  }

  /** Digests all have one length, so their concatenation can be cut back into digests. */
  lemma {:induction false} ConcatDigestsInjective(a: seq<Bytes>, b: seq<Bytes>)
    requires AllDigests(a) && AllDigests(b)
    requires Concat(a) == Concat(b)
    ensures a == b
  {
    if |a| > 0 && |b| > 0 {
      SplitEqual(a[0], Concat(a[1..]), b[0], Concat(b[1..]));
      ConcatDigestsInjective(a[1..], b[1..]);
      assert a == [a[0]] + a[1..] && b == [b[0]] + b[1..];
    }
  }
}
