/**
 The sparse vector of the search engine: a flat array [index, value, index, value, ...] kept
 sorted by index. Numbers are reals. What the flat array means is said about its entries.
 */
module SparseVectors {
  import opened Common

  datatype Entry = Entry(index: real, value: real)

  predicate Flat(e: seq<real>) {
    |e| % 2 == 0
  }

  /** The flat array read two by two. */
  function Entries(e: seq<real>): (s: seq<Entry>)
    requires Flat(e)
    ensures |s| == |e| / 2
    ensures forall i :: 0 <= i < |s| ==> s[i] == Entry(e[2 * i], e[2 * i + 1])
  {
    seq(|e| / 2, i requires 0 <= i < |e| / 2 => Entry(e[2 * i], e[2 * i + 1]))
  }

  predicate Sorted(s: seq<Entry>) {
    forall i, j :: 0 <= i < j < |s| ==> s[i].index < s[j].index
  }

  /** Where index belongs among the entries: smaller indices before it, the others from it on. */
  predicate IsPosition(s: seq<Entry>, index: real, p: nat) {
    && p <= |s|
    && (forall i :: 0 <= i < p ==> s[i].index < index)
    && (forall i :: p <= i < |s| ==> s[i].index >= index)
  }

  lemma PositionIsUnique(s: seq<Entry>, index: real, p: nat, q: nat)
    requires IsPosition(s, index, p) && IsPosition(s, index, q)
    ensures p == q
  {
    assert p < |s| ==> s[p].index < index || s[p].index >= index;
    assert q < |s| ==> s[q].index < index || s[q].index >= index;
  }

  // ----- the map the entries stand for

  /** The index lies behind the start, unless that is 0, and before the end. */
  predicate Brackets(s: seq<Entry>, index: real, start: nat, end: nat) {
    start < end <= |s| && (start > 0 ==> s[start].index < index) && (end < |s| ==> s[end].index > index)
  }

  lemma Doubled(n: nat)
    ensures n * 2 % 2 == 0 && n * 2 / 2 == n
  {
  }

  lemma Narrows(s: seq<Entry>, index: real, start: nat, end: nat, pivot: nat)
    requires Brackets(s, index, start, end) && start < pivot < end
    ensures s[pivot].index < index ==> Brackets(s, index, pivot, end)
    ensures s[pivot].index > index ==> Brackets(s, index, start, pivot)
  {
  }

  /** Where the search ends: at the index, or between two neighbours. */
  lemma PositionAtPivot(s: seq<Entry>, index: real, start: nat, end: nat, pivot: nat)
    requires Sorted(s) && Brackets(s, index, start, end) && start <= pivot < end
    requires s[pivot].index == index || start + 1 == end
    ensures IsPosition(s, index, if s[pivot].index < index then pivot + 1 else pivot)
  {
  }

  function Contents(s: seq<Entry>): map<real, real> {
    if s == [] then map[] else Contents(s[..|s| - 1])[s[|s| - 1].index := s[|s| - 1].value]
  }

  lemma {:induction false} ContentsKeys(s: seq<Entry>, x: real)
    ensures x in Contents(s) <==> exists i :: 0 <= i < |s| && s[i].index == x
    decreases |s|
  {
    if s != [] {
      var most := s[..|s| - 1];
      ContentsKeys(most, x);
      if i :| 0 <= i < |s| && s[i].index == x {
        assert i < |most| ==> most[i] == s[i];
      }
    }
  }

  lemma {:induction false} ContentsAt(s: seq<Entry>, i: nat)
    requires Sorted(s) && i < |s|
    ensures s[i].index in Contents(s) && Contents(s)[s[i].index] == s[i].value
    decreases |s|
  {
    if i < |s| - 1 {
      ContentsAt(s[..|s| - 1], i);
    }
  }

  /** A sorted sequence is determined by what it holds. */
  lemma ContentsAre(s: seq<Entry>, m: map<real, real>)
    requires Sorted(s)
    requires forall i :: 0 <= i < |s| ==> s[i].index in m && m[s[i].index] == s[i].value
    requires forall x :: x in m ==> exists i :: 0 <= i < |s| && s[i].index == x
    ensures Contents(s) == m
  {
    forall x ensures x in m <==> x in Contents(s) {
      ContentsKeys(s, x);
    }
    forall x | x in m ensures Contents(s)[x] == m[x] {
      var i :| 0 <= i < |s| && s[i].index == x;
      ContentsAt(s, i);
    }
  }

  lemma InsertKeepsSorted(s: seq<Entry>, p: nat, e: Entry)
    requires Sorted(s) && IsPosition(s, e.index, p) && e.index !in Contents(s)
    ensures Sorted(s[..p] + [e] + s[p..])
  {
    var t := s[..p] + [e] + s[p..];
    forall i | p <= i < |s| ensures s[i].index > e.index {
      ContentsAt(s, i);
    }
    assert forall i :: 0 <= i < |t| ==> t[i] == if i < p then s[i] else if i == p then e else s[i - 1];
  }

  lemma InsertAt(s: seq<Entry>, p: nat, e: Entry)
    requires Sorted(s) && IsPosition(s, e.index, p) && e.index !in Contents(s)
    ensures Sorted(s[..p] + [e] + s[p..])
    ensures Contents(s[..p] + [e] + s[p..]) == Contents(s)[e.index := e.value]
  {
    var t, m := s[..p] + [e] + s[p..], Contents(s)[e.index := e.value];
    InsertKeepsSorted(s, p, e);
    forall i | 0 <= i < |t| ensures t[i].index in m && m[t[i].index] == t[i].value {
      if i != p {
        ContentsAt(s, if i < p then i else i - 1);
      }
    }
    forall x | x in m ensures exists i :: 0 <= i < |t| && t[i].index == x {
      if x == e.index {
        assert t[p].index == x;
      } else {
        ContentsKeys(s, x);
        var i :| 0 <= i < |s| && s[i].index == x;
        assert t[if i < p then i else i + 1] == s[i];
      }
    }
    ContentsAre(t, m);
  }

  lemma OverwriteAt(s: seq<Entry>, p: nat, value: real)
    requires Sorted(s) && p < |s|
    ensures Sorted(s[p := Entry(s[p].index, value)])
    ensures Contents(s[p := Entry(s[p].index, value)]) == Contents(s)[s[p].index := value]
  {
    var t, m := s[p := Entry(s[p].index, value)], Contents(s)[s[p].index := value];
    forall i | 0 <= i < |t| ensures t[i].index in m && m[t[i].index] == t[i].value {
      ContentsAt(s, i);
    }
    forall x | x in m ensures exists i :: 0 <= i < |t| && t[i].index == x {
      ContentsKeys(s, x);
      if x == s[p].index {
        assert t[p].index == x;
      } else {
        var i :| 0 <= i < |s| && s[i].index == x;
        assert t[i].index == x;
      }
    }
    ContentsAre(t, m);
  }

  // ----- sums

  function SumOfSquares(s: seq<Entry>): (sum: real)
    ensures sum >= 0.0
  {
    if s == [] then 0.0 else SumOfSquares(s[..|s| - 1]) + s[|s| - 1].value * s[|s| - 1].value
  }

  /** The value at an index, 0 when there is none. */
  function ValueAt(m: map<real, real>, index: real): real {
    if index in m then m[index] else 0.0
  }

  /** The dot product by definition: each entry times the value the other vector has at its index. */
  function SumOverCommon(s: seq<Entry>, m: map<real, real>): real {
    if s == [] then 0.0
    else SumOverCommon(s[..|s| - 1], m) + s[|s| - 1].value * ValueAt(m, s[|s| - 1].index)
  }

  /** The two-pointer walk, seen from the ends. */
  function Merged(a: seq<Entry>, b: seq<Entry>): real
    decreases |a| + |b|
  {
    if a == [] || b == [] then 0.0
    else
      var x, y := a[|a| - 1], b[|b| - 1];
      if x.index < y.index then Merged(a, b[..|b| - 1])
      else if x.index > y.index then Merged(a[..|a| - 1], b)
      else Merged(a[..|a| - 1], b[..|b| - 1]) + x.value * y.value
  }

  lemma {:induction false} MergedIsSymmetric(a: seq<Entry>, b: seq<Entry>)
    ensures Merged(a, b) == Merged(b, a)
    decreases |a| + |b|
  {
    if a != [] && b != [] {
      var a', b' := a[..|a| - 1], b[..|b| - 1];
      MergedIsSymmetric(a, b');
      MergedIsSymmetric(a', b);
      MergedIsSymmetric(a', b');
    }
  }

  /** An index beyond all of s changes nothing. */
  lemma {:induction false} SumIgnoresLarger(s: seq<Entry>, m: map<real, real>, e: Entry)
    requires forall i :: 0 <= i < |s| ==> s[i].index < e.index
    ensures SumOverCommon(s, m[e.index := e.value]) == SumOverCommon(s, m)
    decreases |s|
  {
    if s != [] {
      SumIgnoresLarger(s[..|s| - 1], m, e);
    }
  }

  lemma {:induction false} SumOverNothing(s: seq<Entry>)
    ensures SumOverCommon(s, map[]) == 0.0
    decreases |s|
  {
    if s != [] {
      SumOverNothing(s[..|s| - 1]);
    }
  }

  lemma {:induction false} MergedIsSum(a: seq<Entry>, b: seq<Entry>)
    requires Sorted(a) && Sorted(b)
    ensures Merged(a, b) == SumOverCommon(a, Contents(b))
    decreases |a| + |b|
  {
    if b == [] {
      SumOverNothing(a);
    } else if a != [] {
      var a', b' := a[..|a| - 1], b[..|b| - 1];
      var x, y := a[|a| - 1], b[|b| - 1];
      if x.index < y.index {
        MergedIsSum(a, b');
        SumIgnoresLarger(a, Contents(b'), y);
      } else if x.index > y.index {
        MergedIsSum(a', b);
        ContentsKeys(b, x.index);
      } else {
        MergedIsSum(a', b');
        SumIgnoresLarger(a', Contents(b'), y);
      }
    }
  }

  lemma DotIsSymmetric(a: seq<Entry>, b: seq<Entry>)
    requires Sorted(a) && Sorted(b)
    ensures SumOverCommon(a, Contents(b)) == SumOverCommon(b, Contents(a))
  {
    MergedIsSum(a, b);
    MergedIsSum(b, a);
    MergedIsSymmetric(a, b);
  }

  // ----- Cauchy-Schwarz

  lemma ProductNonnegative(a: real, b: real)
    requires a >= 0.0 && b >= 0.0
    ensures a * b >= 0.0
  {
  }

  lemma LargerSquare(p: real, q: real)
    requires 0.0 <= p < q
    ensures p * p < q * q
  {
    assert q * q - p * p == (q - p) * (q + p);
    ProductPositive(q - p, q + p);
  }

  lemma ProductPositive(a: real, b: real)
    requires a > 0.0 && b > 0.0
    ensures a * b > 0.0
  {
  }

  lemma SquareOrder(p: real, q: real)
    requires p >= 0.0 && p * p >= q * q
    ensures -p <= q <= p
  {
    assert (-q) * (-q) == q * q;
    if q > p {
      LargerSquare(p, q);
    } else if -q > p {
      LargerSquare(p, -q);
    }
  }

  lemma Scales(s: real, t: real, k: real)
    requires s <= t && k >= 0.0
    ensures s * k <= t * k
  {
    assert (t - s) * k >= 0.0;
  }

  /** 4uv <= (u + v)^2, with uv bounded below by a product of squares. */
  lemma MeanBound(u: real, v: real, d: real, c: real)
    requires u >= 0.0 && v >= 0.0 && (d * d) * (c * c) <= u * v
    ensures 2.0 * (d * c) <= u + v
  {
    assert (u + v) * (u + v) - 4.0 * (u * v) == (u - v) * (u - v);
    assert (2.0 * (d * c)) * (2.0 * (d * c)) == 4.0 * ((d * d) * (c * c));
    SquareOrder(u + v, 2.0 * (d * c));
  }

  /** One more common index keeps the inequality. */
  lemma OneMoreTerm(d: real, x: real, y: real, a: real, b: real)
    requires a >= 0.0 && b >= 0.0 && d * d <= a * b
    ensures (d + x * y) * (d + x * y) <= (a + x * x) * (b + y * y)
  {
    var c := x * y;
    var u, v := a * (y * y), b * (x * x);
    ProductNonnegative(a, y * y);
    ProductNonnegative(b, x * x);
    Scales(d * d, a * b, c * c);
    assert u * v == (a * b) * (c * c);
    MeanBound(u, v, d, c);
    assert (d + c) * (d + c) == d * d + 2.0 * (d * c) + c * c;
    assert (a + x * x) * (b + y * y) == a * b + u + v + c * c;
  }

  /** A term on one side only keeps it too. */
  lemma OneMoreSquare(d: real, x: real, a: real, b: real)
    requires b >= 0.0 && d * d <= a * b
    ensures d * d <= (a + x * x) * b
  {
    ProductNonnegative(x * x, b);
    assert (a + x * x) * b == a * b + (x * x) * b;
  }

  lemma {:induction false} CauchySchwarz(a: seq<Entry>, b: seq<Entry>)
    ensures Merged(a, b) * Merged(a, b) <= SumOfSquares(a) * SumOfSquares(b)
    decreases |a| + |b|
  {
    if a == [] || b == [] {
      ProductNonnegative(SumOfSquares(a), SumOfSquares(b));
    } else {
      var a', b' := a[..|a| - 1], b[..|b| - 1];
      var x, y := a[|a| - 1], b[|b| - 1];
      if x.index < y.index {
        CauchySchwarz(a, b');
        OneMoreSquare(Merged(a, b), y.value, SumOfSquares(b'), SumOfSquares(a));
      } else if x.index > y.index {
        CauchySchwarz(a', b);
        OneMoreSquare(Merged(a, b), x.value, SumOfSquares(a'), SumOfSquares(b));
      } else {
        CauchySchwarz(a', b');
        OneMoreTerm(Merged(a', b'), x.value, y.value, SumOfSquares(a'), SumOfSquares(b'));
      }
    }
  }

  predicate IsRoot(m: real, s: real) {
    m >= 0.0 && m * m == s
  }

  lemma Ratio(d: real, m: real)
    requires m > 0.0
    ensures -m <= d <= m ==> -1.0 <= d / m <= 1.0
    ensures 0.0 <= d ==> 0.0 <= d / m
  {
    var r := d / m;
    assert r * m == d;
    if r > 1.0 {
      assert (r - 1.0) * m > 0.0;
    }
    if r < -1.0 {
      assert (-1.0 - r) * m > 0.0;
    }
  }

  /** The cosine similarity of two vectors of non-zero magnitude lies in [-1, 1]. */
  lemma SimilarityIsBounded(a: seq<Entry>, b: seq<Entry>, ma: real, mb: real)
    requires Sorted(a) && Sorted(b)
    requires IsRoot(ma, SumOfSquares(a)) && IsRoot(mb, SumOfSquares(b)) && ma * mb != 0.0
    ensures -1.0 <= SumOverCommon(a, Contents(b)) / (ma * mb) <= 1.0
  {
    MergedIsSum(a, b);
    CauchySchwarzTimes(a, b);
    WithinRoots(Merged(a, b), ma, SumOfSquares(a), mb, SumOfSquares(b));
  }

  function Times(x: real, y: real): real {
    x * y
  }

  lemma CauchySchwarzTimes(a: seq<Entry>, b: seq<Entry>)
    requires Sorted(a) && Sorted(b)
    ensures Times(Merged(a, b), Merged(a, b)) <= Times(SumOfSquares(a), SumOfSquares(b))
  {
    CauchySchwarz(a, b);
  }

  lemma WithinRoots(d: real, ma: real, a: real, mb: real, b: real)
    requires IsRoot(ma, a) && IsRoot(mb, b) && Times(d, d) <= Times(a, b) && ma * mb != 0.0
    ensures ma * mb > 0.0 && -(ma * mb) <= d <= ma * mb && -1.0 <= d / (ma * mb) <= 1.0
  {
    SquareOfProduct(ma, mb);
    ProductNonnegative(ma, mb);
    SquareOrder(ma * mb, d);
    Ratio(d, ma * mb);
  }

  lemma SquareOfProduct(x: real, y: real)
    ensures (x * y) * (x * y) == (x * x) * (y * y)
  {
  }

  predicate Scores(s: seq<Entry>) {
    forall i :: 0 <= i < |s| ==> s[i].value >= 0.0
  }

  lemma {:induction false} SumOfScores(a: seq<Entry>, b: seq<Entry>)
    requires Sorted(b) && Scores(a) && Scores(b)
    ensures SumOverCommon(a, Contents(b)) >= 0.0
    decreases |a|
  {
    if a != [] {
      var x := a[|a| - 1];
      SumOfScores(a[..|a| - 1], b);
      ContentsKeys(b, x.index);
      if i :| 0 <= i < |b| && b[i].index == x.index {
        ContentsAt(b, i);
      }
      ProductNonnegative(x.value, ValueAt(Contents(b), x.index));
    }
  }

  /** With scores that are never negative, neither is the similarity. */
  lemma SimilarityOfScores(a: seq<Entry>, b: seq<Entry>, ma: real, mb: real)
    requires Sorted(a) && Sorted(b) && Scores(a) && Scores(b)
    requires IsRoot(ma, SumOfSquares(a)) && IsRoot(mb, SumOfSquares(b)) && ma * mb != 0.0
    ensures 0.0 <= SumOverCommon(a, Contents(b)) / (ma * mb) <= 1.0
  {
    SimilarityIsBounded(a, b, ma, mb);
    SumOfScores(a, b);
    ProductNonnegative(ma, mb);
    Ratio(SumOverCommon(a, Contents(b)), ma * mb);
  }

  // ----- the flat array

  /** `elements.splice(position, 0, index, value)` */
  function Spliced(e: seq<real>, p: nat, index: real, value: real): seq<real>
    requires p <= |e|
  {
    e[..p] + [index, value] + e[p..]
  }

  lemma SplicedEntries(e: seq<real>, p: nat, index: real, value: real)
    requires Flat(e) && 2 * p <= |e|
    ensures Flat(Spliced(e, 2 * p, index, value))
    ensures Entries(Spliced(e, 2 * p, index, value)) == Entries(e)[..p] + [Entry(index, value)] + Entries(e)[p..]
  {
    var f, s, t := Spliced(e, 2 * p, index, value), Entries(e), Entries(e)[..p] + [Entry(index, value)] + Entries(e)[p..];
    forall i | 0 <= i < |t| ensures Entries(f)[i] == t[i] {
      if i > p {
        assert f[2 * i] == e[2 * (i - 1)] && f[2 * i + 1] == e[2 * (i - 1) + 1];
        assert t[i] == s[i - 1];
      }
    }
  }

  lemma SpliceInserts(e: seq<real>, p: nat, index: real, value: real)
    requires Flat(e) && Sorted(Entries(e)) && IsPosition(Entries(e), index, p) && index !in Contents(Entries(e))
    ensures var e' := Spliced(e, 2 * p, index, value);
            Flat(e') && Sorted(Entries(e')) && Contents(Entries(e')) == Contents(Entries(e))[index := value]
  {
    InsertAt(Entries(e), p, Entry(index, value));
    SplicedEntries(e, p, index, value);
  }

  lemma OverwrittenEntries(e: seq<real>, p: nat, value: real)
    requires Flat(e) && 2 * p < |e|
    ensures Entries(e[2 * p + 1 := value]) == Entries(e)[p := Entry(e[2 * p], value)]
  {
  }

  class Vector {
    var elements: seq<real>
    var cached: real          // _magnitude, 0 when unknown

    ghost predicate Valid()
      reads this
    {
      && Flat(elements) && Sorted(Entries(elements))
      && (cached != 0.0 ==> IsRoot(cached, SumOfSquares(Entries(elements))))
    }

    ghost function Map(): map<real, real>
      requires Valid()
      reads this
    {
      Contents(Entries(elements))
    }

    constructor ()
      ensures Valid() && Map() == map[]
    {
      elements, cached := [], 0.0;
    }

    method PositionForIndex(index: real) returns (position: nat)
      requires Valid()
      ensures position % 2 == 0 && IsPosition(Entries(elements), index, position / 2)
    {
      if |elements| == 0 {
        return 0;
      }
      ghost var s := Entries(elements);
      var start: nat, end: nat := 0, |elements| / 2;
      var sliceLength := end - start;
      var pivotPoint := sliceLength / 2;
      var pivotIndex := elements[pivotPoint * 2];
      while sliceLength > 1
        invariant Brackets(s, index, start, end) && sliceLength == end - start
        invariant pivotPoint == start + sliceLength / 2 && pivotIndex == s[pivotPoint].index
        decreases sliceLength
      {
        Narrows(s, index, start, end, pivotPoint);
        if pivotIndex < index {
          start := pivotPoint;
        }
        if pivotIndex > index {
          end := pivotPoint;
        }
        if pivotIndex == index {
          break;
        }
        sliceLength := end - start;
        pivotPoint := start + sliceLength / 2;
        pivotIndex := elements[pivotPoint * 2];
      }
      PositionAtPivot(s, index, start, end, pivotPoint);
      Doubled(pivotPoint);
      Doubled(pivotPoint + 1);
      if pivotIndex == index {
        return pivotPoint * 2;
      }
      if pivotIndex > index {
        return pivotPoint * 2;
      }
      return (pivotPoint + 1) * 2;
    }

    /** `combine` is called with the present and the requested value when the index is there. */
    method Upsert(index: real, value: real, combine: (real, real) -> real)
      requires Valid()
      modifies this
      ensures Valid() && cached == 0.0
      ensures Map() == old(Map())[index :=
                if index in old(Map()) then combine(old(Map())[index], value) else value]
    {
      cached := 0.0;
      var position := PositionForIndex(index);
      ghost var s, p := Entries(elements), position / 2;
      PositionDecides(s, index, p);
      if position < |elements| && elements[position] == index {
        var combined := combine(elements[position + 1], value);
        OverwriteAt(s, p, combined);
        OverwrittenEntries(elements, p, combined);
        elements := elements[position + 1 := combined];
      } else {
        Splice(position, index, value);
      }
    }

    /** A new entry at its place. */
    method Splice(position: nat, index: real, value: real)
      requires Valid() && cached == 0.0 && index !in Map()
      requires position % 2 == 0 && IsPosition(Entries(elements), index, position / 2)
      modifies this`elements
      ensures Valid() && Map() == old(Map())[index := value]
    {
      SpliceInserts(elements, position / 2, index, value);
      elements := Spliced(elements, position, index, value);
    }

    /** False where the original throws "duplicate index"; then the contents are unchanged. */
    method Insert(index: real, value: real) returns (ok: bool)
      requires Valid()
      modifies this
      ensures Valid() && cached == 0.0
      ensures ok <==> index !in old(Map())
      ensures Map() == if ok then old(Map())[index := value] else old(Map())
    {
      cached := 0.0;
      var position := PositionForIndex(index);
      PositionDecides(Entries(elements), index, position / 2);
      if position < |elements| && elements[position] == index {
        return false;
      }
      Splice(position, index, value);
      return true;
    }

    /** `sqrt` stands for Math.sqrt; nothing is asked of it but its value at the sum of squares. */
    method Magnitude(sqrt: real -> real) returns (m: real)
      requires Valid()
      requires IsRoot(sqrt(SumOfSquares(Entries(elements))), SumOfSquares(Entries(elements)))
      modifies this`cached
      ensures Valid() && cached == m && IsRoot(m, SumOfSquares(Entries(elements)))
      ensures old(cached) != 0.0 ==> cached == old(cached)
    {
      if cached != 0.0 {
        return cached;
      }
      ghost var s := Entries(elements);
      var sumOfSquares := 0.0;
      var i := 1;
      while i < |elements|
        invariant i % 2 == 1 && i <= |elements| + 1
        invariant sumOfSquares == SumOfSquares(s[..i / 2])
      {
        var value := elements[i];
        assert s[..i / 2 + 1][..i / 2] == s[..i / 2] && s[i / 2].value == value;
        sumOfSquares := sumOfSquares + value * value;
        i := i + 2;
      }
      assert s[..i / 2] == s;
      cached := sqrt(sumOfSquares);
      return cached;
    }

    method Dot(other: Vector) returns (product: real)
      requires Valid() && other.Valid()
      ensures product == SumOverCommon(Entries(elements), other.Map())
    {
      var a, b := elements, other.elements;
      product := 0.0;
      var i, j := 0, 0;
      ghost var k, l := 0, 0;
      while i < |a| && j < |b|
        invariant i == 2 * k && j == 2 * l && WalkedTo(a, b, k, l, product)
        decreases |a| - i + |b| - j
      {
        WalkStep(a, b, k, l, i, j, product);
        var aVal, bVal := a[i], b[j];
        if aVal < bVal {
          i, k := i + 2, k + 1;
        } else if aVal > bVal {
          j, l := j + 2, l + 1;
        } else {
          product := product + a[i + 1] * b[j + 1];
          i, j, k, l := i + 2, j + 2, k + 1, l + 1;
        }
      }
      WalkEnds(a, b, k, l);
    }

    /** Nothing where the original divides by zero. */
    method Similarity(other: Vector, sqrt: real -> real) returns (similarity: Option<real>)
      requires Valid() && other.Valid()
      requires IsRoot(sqrt(SumOfSquares(Entries(elements))), SumOfSquares(Entries(elements)))
      requires IsRoot(sqrt(SumOfSquares(Entries(other.elements))), SumOfSquares(Entries(other.elements)))
      modifies this`cached, other`cached
      ensures Valid() && other.Valid()
      ensures similarity.Some? <==> SumOfSquares(Entries(elements)) != 0.0 && SumOfSquares(Entries(other.elements)) != 0.0
      ensures similarity.Some? ==>
                IsCosine(similarity.value, SumOverCommon(Entries(elements), other.Map()), cached, other.cached)
    {
      ghost var a, b := Entries(elements), Entries(other.elements);
      var dot := Dot(other);
      var mine := Magnitude(sqrt);
      var others := other.Magnitude(sqrt);
      assert Entries(elements) == a && Entries(other.elements) == b;
      RootsVanishTogether(mine, SumOfSquares(a), others, SumOfSquares(b));
      if mine * others == 0.0 {
        return None;
      }
      CosineIsInRange(a, b, mine, others);
      return Some(dot / (mine * others));
    }
  }

  /** q is the cosine for dot product d and magnitudes ma and mb; it is in range. */
  predicate IsCosine(q: real, d: real, ma: real, mb: real) {
    ma * mb != 0.0 && q == d / (ma * mb) && -1.0 <= q <= 1.0 && (d >= 0.0 ==> q >= 0.0)
  }

  lemma CosineIsInRange(a: seq<Entry>, b: seq<Entry>, ma: real, mb: real)
    requires Sorted(a) && Sorted(b)
    requires IsRoot(ma, SumOfSquares(a)) && IsRoot(mb, SumOfSquares(b)) && ma * mb != 0.0
    ensures IsCosine(SumOverCommon(a, Contents(b)) / (ma * mb), SumOverCommon(a, Contents(b)), ma, mb)
  {
    SimilarityIsBounded(a, b, ma, mb);
    ProductNonnegative(ma, mb);
    Ratio(SumOverCommon(a, Contents(b)), ma * mb);
  }

  lemma RootsVanishTogether(ma: real, a: real, mb: real, b: real)
    requires IsRoot(ma, a) && IsRoot(mb, b)
    ensures ma * mb == 0.0 <==> a == 0.0 || b == 0.0
  {
    if ma != 0.0 && mb != 0.0 {
      ProductPositive(ma, mb);
    }
  }

  /** Whether the index is present is decided at its position. */
  lemma PositionDecides(s: seq<Entry>, index: real, p: nat)
    requires Sorted(s) && IsPosition(s, index, p)
    ensures index in Contents(s) <==> p < |s| && s[p].index == index
    ensures index in Contents(s) ==> Contents(s)[index] == s[p].value
  {
    ContentsKeys(s, index);
    if i :| 0 <= i < |s| && s[i].index == index {
      ContentsAt(s, p);
    }
  }

  /** What the walk has passed on either side lies below what it has not reached on the other. */
  predicate Apart(s: seq<Entry>, t: seq<Entry>, i: nat, j: nat) {
    && i <= |s| && j <= |t|
    && (i > 0 && j < |t| ==> s[i - 1].index < t[j].index)
    && (j > 0 && i < |s| ==> t[j - 1].index < s[i].index)
  }

  /** Passing an entry that has no partner among the entries passed adds nothing. */
  lemma TakeAnyway(s: seq<Entry>, t: seq<Entry>, i: nat, j: nat)
    requires Apart(s, t, i, j) && Sorted(s) && Sorted(t)
    ensures i < |s| ==> Merged(s[..i + 1], t[..j]) == Merged(s[..i], t[..j])
    ensures j < |t| ==> Merged(s[..i], t[..j + 1]) == Merged(s[..i], t[..j])
  {
    if i < |s| {
      assert s[..i + 1][..i] == s[..i];
    }
    if j < |t| {
      assert t[..j + 1][..j] == t[..j];
    }
  }

  /** The product of what the walk has passed. */
  ghost function Walked(a: seq<real>, b: seq<real>, k: nat, l: nat): real
    requires Flat(a) && Flat(b) && 2 * k <= |a| && 2 * l <= |b|
  {
    Merged(Entries(a)[..k], Entries(b)[..l])
  }

  /** One step of the walk, in each of its three cases. */
  lemma WalkOn(a: seq<real>, b: seq<real>, k: nat, l: nat)
    requires Flat(a) && Flat(b) && 2 * k < |a| && 2 * l < |b|
    requires Sorted(Entries(a)) && Sorted(Entries(b)) && Apart(Entries(a), Entries(b), k, l)
    ensures var k' := if a[2 * k] <= b[2 * l] then k + 1 else k;
            var l' := if a[2 * k] >= b[2 * l] then l + 1 else l;
            && Apart(Entries(a), Entries(b), k', l')
            && Walked(a, b, k', l') ==
               if a[2 * k] == b[2 * l] then Walked(a, b, k, l) + a[2 * k + 1] * b[2 * l + 1] else Walked(a, b, k, l)
  {
    var s, t := Entries(a), Entries(b);
    TakeAnyway(s, t, k, l);
    assert s[..k + 1][..k] == s[..k] && t[..l + 1][..l] == t[..l];
    assert s[k] == Entry(a[2 * k], a[2 * k + 1]) && t[l] == Entry(b[2 * l], b[2 * l + 1]);
  }

  /** Where the walk stands, and what it has summed up. */
  ghost predicate WalkedTo(a: seq<real>, b: seq<real>, k: nat, l: nat, product: real) {
    && Flat(a) && Flat(b) && 2 * k <= |a| && 2 * l <= |b| && Sorted(Entries(a)) && Sorted(Entries(b))
    && Apart(Entries(a), Entries(b), k, l) && product == Walked(a, b, k, l)
  }

  lemma WalkStep(a: seq<real>, b: seq<real>, k: nat, l: nat, i: nat, j: nat, product: real)
    requires WalkedTo(a, b, k, l, product) && i == 2 * k < |a| && j == 2 * l < |b|
    ensures a[i] < b[j] ==> WalkedTo(a, b, k + 1, l, product)
    ensures a[i] > b[j] ==> WalkedTo(a, b, k, l + 1, product)
    ensures a[i] == b[j] ==> WalkedTo(a, b, k + 1, l + 1, product + a[i + 1] * b[j + 1])
  {
    WalkOn(a, b, k, l);
  }

  lemma WalkEnds(a: seq<real>, b: seq<real>, k: nat, l: nat)
    requires Flat(a) && Flat(b) && 2 * k <= |a| && 2 * l <= |b| && (2 * k == |a| || 2 * l == |b|)
    requires Sorted(Entries(a)) && Sorted(Entries(b)) && Apart(Entries(a), Entries(b), k, l)
    ensures Walked(a, b, k, l) == SumOverCommon(Entries(a), Contents(Entries(b)))
  {
    TailsAddNothing(Entries(a), Entries(b), k, l);
    MergedIsSum(Entries(a), Entries(b));
  }

  /** Once one vector is used up, what is left of the other has no common index. */
  lemma {:induction false} TailsAddNothing(s: seq<Entry>, t: seq<Entry>, i: nat, j: nat)
    requires Sorted(s) && Sorted(t) && Apart(s, t, i, j) && (i == |s| || j == |t|)
    ensures Merged(s, t) == Merged(s[..i], t[..j])
    decreases |s| - i + |t| - j
  {
    if i < |s| {
      TakeAnyway(s, t, i, j);
      TailsAddNothing(s, t, i + 1, j);
    } else if j < |t| {
      TakeAnyway(s, t, i, j);
      TailsAddNothing(s, t, i, j + 1);
    } else {
      assert s[..i] == s && t[..j] == t;
    }
  }
}
