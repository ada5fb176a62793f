/**
 What makes the dot product the dot product: it is linear, a unit vector picks out a value, and the
 product of a vector with itself is its sum of squares.
 */
module DotProducts {
  import opened Common
  import opened SparseVectors

  // ----- linear, and picking out values

  lemma {:induction false} DotAdds(s: seq<Entry>, m: map<real, real>, m': map<real, real>, sum: map<real, real>)
    requires forall x :: ValueAt(sum, x) == ValueAt(m, x) + ValueAt(m', x)
    ensures SumOverCommon(s, sum) == SumOverCommon(s, m) + SumOverCommon(s, m')
  {
    if s != [] {
      var init, e := s[..|s| - 1], s[|s| - 1];
      DotAdds(init, m, m', sum);
      Distributes(e.value, ValueAt(m, e.index), ValueAt(m', e.index));
    }
  }

  lemma Distributes(x: real, y: real, z: real)
    ensures x * (y + z) == x * y + x * z
  {
  }

  lemma {:induction false} DotScales(s: seq<Entry>, m: map<real, real>, k: real, scaled: map<real, real>)
    requires forall x :: ValueAt(scaled, x) == k * ValueAt(m, x)
    ensures SumOverCommon(s, scaled) == k * SumOverCommon(s, m)
  {
    if s != [] {
      var init, e := s[..|s| - 1], s[|s| - 1];
      DotScales(init, m, k, scaled);
      ScaledTerm(k, SumOverCommon(init, m), e.value, ValueAt(m, e.index));
    }
  }

  lemma ScaledTerm(k: real, d: real, x: real, y: real)
    ensures k * d + x * (k * y) == k * (d + x * y)
  {
  }

  /** The product with a unit vector is the value at its index, 0 where the vector has none. */
  lemma {:induction false} UnitPicksValue(s: seq<Entry>, x: real)
    requires Sorted(s)
    ensures SumOverCommon(s, map[x := 1.0]) == if x in Contents(s) then Contents(s)[x] else 0.0
  {
    if s != [] {
      var init, e := s[..|s| - 1], s[|s| - 1];
      UnitPicksValue(init, x);
      ContentsKeys(init, x);
      ContentsKeys(s, x);
      ContentsAt(s, |s| - 1);
      SameBefore(s, x);
    }
  }

  /** The last entry changes the contents at its own index only. */
  lemma SameBefore(s: seq<Entry>, x: real)
    requires Sorted(s) && s != []
    ensures x != s[|s| - 1].index ==>
              (x in Contents(s) <==> x in Contents(s[..|s| - 1])) &&
              (x in Contents(s) ==> Contents(s)[x] == Contents(s[..|s| - 1])[x])
    ensures s[|s| - 1].index !in Contents(s[..|s| - 1])
  {
    var init := s[..|s| - 1];
    ContentsKeys(init, x);
    ContentsKeys(s, x);
    ContentsKeys(init, s[|s| - 1].index);
    if x in Contents(s) && x != s[|s| - 1].index {
      var i :| 0 <= i < |s| && s[i].index == x;
      ContentsAt(s, i);
      ContentsAt(init, i);
    }
  }

  // ----- a vector and itself

  lemma {:induction false} MergedWithItself(s: seq<Entry>)
    ensures Merged(s, s) == SumOfSquares(s)
  {
    if s != [] {
      MergedWithItself(s[..|s| - 1]);
    }
  }

  /** The sum of squares is the product of a vector with itself. */
  lemma SelfProduct(s: seq<Entry>)
    requires Sorted(s)
    ensures SumOverCommon(s, Contents(s)) == SumOfSquares(s)
  {
    MergedIsSum(s, s);
    MergedWithItself(s);
  }

  // ----- multiples

  /** b has the indices of a, and k times its values. */
  predicate IsMultiple(a: seq<Entry>, b: seq<Entry>, k: real) {
    |a| == |b| && forall i :: 0 <= i < |a| ==> b[i] == Entry(a[i].index, k * a[i].value)
  }

  lemma {:induction false} MultipleSums(a: seq<Entry>, b: seq<Entry>, k: real)
    requires IsMultiple(a, b, k)
    ensures Merged(a, b) == Times(k, SumOfSquares(a)) && SumOfSquares(b) == Times(k * k, SumOfSquares(a))
  {
    if a == [] {
      assert Times(k, 0.0) == 0.0 && Times(k * k, 0.0) == 0.0;
    } else {
      var a', b', x, y := a[..|a| - 1], b[..|b| - 1], a[|a| - 1].value, b[|b| - 1].value;
      MultipleSums(a', b', k);
      LastTerms(a, b);
      LastSquare(a);
      LastSquare(b);
      ScaledSquares(k, SumOfSquares(a'), x, y, SumOfSquares(a));
    }
  }

  lemma LastTerms(a: seq<Entry>, b: seq<Entry>)
    requires a != [] && b != [] && a[|a| - 1].index == b[|b| - 1].index
    ensures Merged(a, b) == Merged(a[..|a| - 1], b[..|b| - 1]) + a[|a| - 1].value * b[|b| - 1].value
  {
  }

  lemma LastSquare(a: seq<Entry>)
    requires a != []
    ensures SumOfSquares(a) == SumOfSquares(a[..|a| - 1]) + a[|a| - 1].value * a[|a| - 1].value
  {
  }

  lemma ScaledSquares(k: real, s: real, x: real, y: real, s': real)
    requires y == k * x && s' == s + x * x
    ensures Times(k, s) + x * y == Times(k, s') && Times(k * k, s) + y * y == Times(k * k, s')
  {
    assert x * y == k * (x * x);
    assert y * y == (k * k) * (x * x);
  }

  /** The square of the dot product of multiples is the product of their sums of squares. */
  lemma MultipleReachesBound(a: seq<Entry>, b: seq<Entry>, k: real)
    requires IsMultiple(a, b, k)
    ensures Times(Merged(a, b), Merged(a, b)) == Times(SumOfSquares(a), SumOfSquares(b))
  {
    MultipleSums(a, b, k);
    SquareOfMultiple(k, SumOfSquares(a), Merged(a, b), SumOfSquares(b));
  }

  lemma SquareOfMultiple(k: real, s: real, d: real, t: real)
    requires d == Times(k, s) && t == Times(k * k, s)
    ensures Times(d, d) == Times(s, t)
  {
    assert (k * s) * (k * s) == (k * k) * (s * s);
  }

  lemma UnitSquare(q: real, d: real, m: real)
    requires m != 0.0 && q == d / m && d * d == m * m
    ensures q * q == 1.0
  {
    var p := 1.0 / m;
    assert q == d * p && m * p == 1.0;
    assert q * q == (d * d) * (p * p);
    assert (m * m) * (p * p) == (m * p) * (m * p);
  }

  lemma ParallelByRoots(q: real, d: real, ma: real, a: real, mb: real, b: real)
    requires IsRoot(ma, a) && IsRoot(mb, b) && Times(d, d) == Times(a, b) && IsCosine(q, d, ma, mb)
    ensures q * q == 1.0
  {
    SquareOfProduct(ma, mb);
    UnitSquare(q, d, ma * mb);
  }

  /** The cosine of two non-zero vectors one of which is a multiple of the other is 1 or -1. */
  lemma MultiplesAreParallel(a: seq<Entry>, b: seq<Entry>, k: real, ma: real, mb: real, q: real)
    requires Sorted(a) && Sorted(b) && IsMultiple(a, b, k)
    requires IsRoot(ma, SumOfSquares(a)) && IsRoot(mb, SumOfSquares(b))
    requires IsCosine(q, SumOverCommon(a, Contents(b)), ma, mb)
    ensures q * q == 1.0
  {
    MergedIsSum(a, b);
    MultipleReachesBound(a, b, k);
    ParallelByRoots(q, Merged(a, b), ma, SumOfSquares(a), mb, SumOfSquares(b));
  }

  // ----- equal vectors

  /** Sorted entries are determined by the contents. */
  lemma {:induction false} SameContents(a: seq<Entry>, b: seq<Entry>)
    requires Sorted(a) && Sorted(b) && Contents(a) == Contents(b)
    ensures a == b
    decreases |a| + |b|
  {
    if a == [] {
      EmptyContents(a, b);
    } else if b == [] {
      EmptyContents(b, a);
    } else {
      LastIndices(a, b);
      SameInit(a, b);
      SameContents(a[..|a| - 1], b[..|b| - 1]);
      assert a == a[..|a| - 1] + [a[|a| - 1]] && b == b[..|b| - 1] + [b[|b| - 1]];
    }
  }

  lemma LastIndices(a: seq<Entry>, b: seq<Entry>)
    requires Sorted(a) && Sorted(b) && a != [] && b != [] && Contents(a) == Contents(b)
    ensures a[|a| - 1].index == b[|b| - 1].index
  {
    ContentsAt(a, |a| - 1);
    ContentsAt(b, |b| - 1);
    LargestIndex(a, b[|b| - 1].index, Contents(a));
    LargestIndex(b, a[|a| - 1].index, Contents(b));
  }

  lemma EmptyContents(a: seq<Entry>, b: seq<Entry>)
    requires a == [] && Contents(a) == Contents(b)
    ensures b == []
  {
    if b != [] {
      ContentsAt(b, 0);
    }
  }

  lemma LargestIndex(a: seq<Entry>, y: real, m: map<real, real>)
    requires Sorted(a) && a != [] && y in m && m == Contents(a)
    ensures y <= a[|a| - 1].index
  {
    ContentsKeys(a, y);
  }

  lemma SameInit(a: seq<Entry>, b: seq<Entry>)
    requires Sorted(a) && Sorted(b) && a != [] && b != [] && Contents(a) == Contents(b)
    requires a[|a| - 1].index == b[|b| - 1].index
    ensures a[|a| - 1] == b[|b| - 1] && Contents(a[..|a| - 1]) == Contents(b[..|b| - 1])
  {
    ContentsAt(a, |a| - 1);
    ContentsAt(b, |b| - 1);
    var ca, cb := Contents(a[..|a| - 1]), Contents(b[..|b| - 1]);
    forall x ensures x in ca <==> x in cb {
      SameBefore(a, x);
      SameBefore(b, x);
    }
    forall x | x in ca ensures ca[x] == cb[x] {
      SameBefore(a, x);
      SameBefore(b, x);
    }
  }

  /** The cosine of a non-zero vector with one of the same contents is 1. */
  lemma EqualsAreSimilar(a: seq<Entry>, b: seq<Entry>, ma: real, mb: real, q: real)
    requires Sorted(a) && Sorted(b) && Contents(a) == Contents(b)
    requires IsRoot(ma, SumOfSquares(a)) && IsRoot(mb, SumOfSquares(b))
    requires IsCosine(q, SumOverCommon(a, Contents(b)), ma, mb)
    ensures q == 1.0
  {
    SameContents(a, b);
    SelfProduct(a);
    SameRoot(ma, mb, SumOfSquares(a));
    OneOfItself(q, SumOverCommon(a, Contents(b)), ma * mb);
  }

  lemma SameRoot(m: real, n: real, s: real)
    requires IsRoot(m, s) && IsRoot(n, s)
    ensures m == n
  {
    if m < n {
      LargerSquare(m, n);
    } else if n < m {
      LargerSquare(n, m);
    }
  }

  lemma OneOfItself(q: real, d: real, m: real)
    requires m != 0.0 && d == m && q == d / m
    ensures q == 1.0
  {
    assert q * m == m;
    assert (q - 1.0) * m == 0.0;
  }
}
