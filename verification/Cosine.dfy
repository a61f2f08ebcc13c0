/** Cosine similarity, L2 normalisation and the exact top-k scan, over the reals. */
module Cosine {
  import opened MemoryTypes
  import opened Ordering

  predicate IsRoot(r: real, x: real) { r >= 0.0 && r * r == x }

  /** What is assumed of Math.sqrt: it is the exact non-negative root. */
  ghost predicate IsSqrt(sqrt: real -> real) {
    forall x: real {:trigger IsRoot(sqrt(x), x)} :: x >= 0.0 ==> IsRoot(sqrt(x), x)
  }

  /** Dot product of the first n coordinates. */
  function Dot(a: Vec, b: Vec, n: nat): real
    requires n <= |a| && n <= |b|
  {
    if n == 0 then 0.0 else Dot(a, b, n - 1) + a[n - 1] * b[n - 1]
  }

  function NormSq(a: Vec): real { Dot(a, a, |a|) }

  function Scale(c: real, a: Vec): (r: Vec)
    ensures |r| == |a|
  {
    seq(|a|, i requires 0 <= i < |a| => c * a[i])
  }

  predicate IsZero(a: Vec) { forall i :: 0 <= i < |a| ==> a[i] == 0.0 }

  // ---- Algebra of the dot product ----

  // Returning the product keeps the solver from rewriting the sign of a square away.
  lemma Product(x: real, y: real) returns (r: real)
    requires x > 0.0 && y > 0.0
    ensures r == x * y && r > 0.0
  {
    r := x * y;
  }

  lemma Square(x: real) returns (r: real)
    ensures r == x * x
    ensures r >= 0.0
    ensures r == 0.0 <==> x == 0.0
  {
    if x < 0.0 {
      r := Product(-x, -x);
    } else if x > 0.0 {
      r := Product(x, x);
    } else {
      r := 0.0;
    }
  }

  lemma {:induction false} DotSelf(a: Vec, n: nat)
    requires n <= |a|
    ensures Dot(a, a, n) >= 0.0
    ensures Dot(a, a, n) == 0.0 <==> forall i :: 0 <= i < n ==> a[i] == 0.0
  {
    if n == 0 {
    } else {
      DotSelf(a, n - 1);
      var square := Square(a[n - 1]);
      assert Dot(a, a, n) == Dot(a, a, n - 1) + square;
    }
  }

  lemma {:induction false} DotSymmetric(a: Vec, b: Vec, n: nat)
    requires n <= |a| && n <= |b|
    ensures Dot(a, b, n) == Dot(b, a, n)
  {
    if n == 0 {
    } else {
      DotSymmetric(a, b, n - 1);
    }
  }

  lemma {:induction false} DotScale(c: real, a: Vec, b: Vec, n: nat)
    requires n <= |a| && n <= |b|
    ensures Dot(Scale(c, a), b, n) == c * Dot(a, b, n)
  {
    if n == 0 {
    } else {
      DotScale(c, a, b, n - 1);
      assert c * (Dot(a, b, n - 1) + a[n - 1] * b[n - 1]) == c * Dot(a, b, n - 1) + (c * a[n - 1]) * b[n - 1];
    }
  }

  lemma {:induction false} NormScale(c: real, a: Vec)
    ensures NormSq(Scale(c, a)) == c * c * NormSq(a)
  {
    var s := Scale(c, a);
    DotScale(c, a, s, |a|);
    DotSymmetric(a, s, |a|);
    DotScale(c, a, a, |a|);
    assert NormSq(s) == c * (c * NormSq(a));
  }

  lemma {:induction false} ZeroDot(a: Vec, b: Vec, n: nat)
    requires n <= |a| && n <= |b|
    requires forall i :: 0 <= i < n ==> a[i] == 0.0
    ensures Dot(a, b, n) == 0.0
  {
    if n == 0 {
    } else {
      ZeroDot(a, b, n - 1);
    }
  }

  /** The unit vector along coordinate i. */
  ghost function Basis(n: nat, i: nat): (r: Vec)
    ensures |r| == n
  {
    seq(n, k => if k == i then 1.0 else 0.0)
  }

  /** The dot product with a unit vector is the coordinate; being linear in both operands, it is fixed by that. */
  lemma {:induction false} DotBasis(n: nat, i: nat, v: Vec, m: nat)
    requires m <= n && n <= |v| && i < n
    ensures Dot(Basis(n, i), v, m) == if i < m then v[i] else 0.0
  {
    if m == 0 {
    } else {
      DotBasis(n, i, v, m - 1);
    }
  }

  lemma Vertex(D: real, B: real) returns (t: real)
    requires B > 0.0
    ensures t * B == -D
  {
    t := -D / B;
  }

  lemma ZeroProducts(A: real, D: real, B: real)
    requires B == 0.0 && D == 0.0
    ensures D * D <= A * B
  {
  }

  ghost function Axpy(x: real, t: real, y: real): real { x + t * y }

  /** |a + t b|^2, written in A = |a|^2, D = dot(a,b) and B = |b|^2. */
  ghost function Quadratic(A: real, D: real, B: real, t: real): real {
    Axpy(Axpy(A, t, D), t, Axpy(D, t, B))
  }

  /** The vector a + t b. */
  ghost function Along(a: Vec, t: real, b: Vec): (r: Vec)
    requires |a| == |b|
    ensures |r| == |a|
  {
    seq(|a|, i requires 0 <= i < |a| => a[i] + t * b[i])
  }

  lemma Spread(x: real, t: real, y: real, z: real)
    ensures (x + t * y) * z == x * z + t * (y * z)
  {
  }

  lemma Spread2(u: real, t: real, v: real, w: real)
    ensures u + t * (v + w) == u + t * v + t * w
  {
  }

  lemma {:induction false} DotAlong(a: Vec, t: real, b: Vec, v: Vec, n: nat)
    requires |a| == |b| && n <= |a| && n <= |v|
    ensures Dot(Along(a, t, b), v, n) == Axpy(Dot(a, v, n), t, Dot(b, v, n))
  {
    if n == 0 {
    } else {
      DotAlong(a, t, b, v, n - 1);
      Spread(a[n - 1], t, b[n - 1], v[n - 1]);
      Spread2(Dot(a, v, n - 1), t, Dot(b, v, n - 1), b[n - 1] * v[n - 1]);
    }
  }

  lemma QuadraticIsNorm(a: Vec, t: real, b: Vec)
    requires |a| == |b|
    ensures Quadratic(NormSq(a), Dot(a, b, |a|), NormSq(b), t) == NormSq(Along(a, t, b))
  {
    var c, n := Along(a, t, b), |a|;
    DotAlong(a, t, b, c, n);
    DotSymmetric(a, c, n);
    DotSymmetric(b, c, n);
    DotAlong(a, t, b, a, n);
    DotAlong(a, t, b, b, n);
    DotSymmetric(a, b, n);
    assert NormSq(c) == Axpy(Dot(a, c, n), t, Dot(b, c, n));
  }

  /** A quadratic that is non-negative at its vertex has a non-positive discriminant. */
  lemma Discriminant(A: real, D: real, B: real, t: real)
    requires B > 0.0 && t * B == -D
    requires Quadratic(A, D, B, t) >= 0.0
    ensures D * D <= A * B
  {
    var k := t * D;
    assert D + t * B == 0.0;
    var product := NonNegativeProduct(A + k, B);
    assert k * B == D * (t * B) == -(D * D);
    assert product == A * B + k * B;
  }

  /** dot(a,b)^2 <= |a|^2 |b|^2, for vectors of any equal length. */
  lemma CauchySchwarz(a: Vec, b: Vec)
    requires |a| == |b|
    ensures Dot(a, b, |a|) * Dot(a, b, |a|) <= NormSq(a) * NormSq(b)
  {
    DotSelf(b, |b|);
    if NormSq(b) == 0.0 {
      DotSymmetric(a, b, |a|);
      ZeroDot(b, a, |a|);
      ZeroProducts(NormSq(a), Dot(a, b, |a|), NormSq(b));
    } else {
      var t := Vertex(Dot(a, b, |a|), NormSq(b));
      QuadraticIsNorm(a, t, b);
      DotSelf(Along(a, t, b), |a|);
      Discriminant(NormSq(a), Dot(a, b, |a|), NormSq(b), t);
    }
  }

  lemma NonNegativeProduct(x: real, y: real) returns (r: real)
    requires x >= 0.0 && y >= 0.0
    ensures r == x * y && r >= 0.0
  {
    r := x * y;
  }

  lemma PositiveProduct(x: real, y: real)
    requires x > 0.0 && y > 0.0
    ensures x * y > 0.0
  {
  }

  lemma SqrtPositive(sqrt: real -> real, x: real)
    requires IsSqrt(sqrt) && x > 0.0
    ensures sqrt(x) > 0.0 && sqrt(x) * sqrt(x) == x
  {
    assert IsRoot(sqrt(x), x);
  }

  // ---- cosine ----

  ghost function Quotient(d: real, x: real, y: real): real
    requires x > 0.0 && y > 0.0
  {
    PositiveProduct(x, y);
    d / (x * y)
  }

  /** What cosine returns: 0 on a zero operand, otherwise dot / (|a| |b|). */
  ghost function CosineOf(sqrt: real -> real, a: Vec, b: Vec): real
    requires IsSqrt(sqrt) && |a| == |b|
  {
    DotSelf(a, |a|);
    DotSelf(b, |b|);
    if NormSq(a) == 0.0 || NormSq(b) == 0.0 then 0.0
    else
      SqrtPositive(sqrt, NormSq(a));
      SqrtPositive(sqrt, NormSq(b));
      Quotient(Dot(a, b, |a|), sqrt(NormSq(a)), sqrt(NormSq(b)))
  }

  method Cosine(sqrt: real -> real, a: Vec, b: Vec) returns (r: real)
    requires IsSqrt(sqrt) && |a| == |b|
    ensures r == CosineOf(sqrt, a, b)
  {
    var n := |a|;
    var dot, normA, normB := 0.0, 0.0, 0.0;
    var i := 0;
    while i < n
      invariant 0 <= i <= n
      invariant dot == Dot(a, b, i) && normA == Dot(a, a, i) && normB == Dot(b, b, i)
    {
      dot := dot + a[i] * b[i];
      normA := normA + a[i] * a[i];
      normB := normB + b[i] * b[i];
      i := i + 1;
    }
    DotSelf(a, n);
    DotSelf(b, n);
    if normA == 0.0 || normB == 0.0 { return 0.0; }
    SqrtPositive(sqrt, normA);
    SqrtPositive(sqrt, normB);
    PositiveProduct(sqrt(normA), sqrt(normB));
    r := dot / (sqrt(normA) * sqrt(normB));
    assert r == Quotient(dot, sqrt(normA), sqrt(normB));
  }

  lemma CosineInRange(sqrt: real -> real, a: Vec, b: Vec)
    requires IsSqrt(sqrt) && |a| == |b|
    ensures -1.0 <= CosineOf(sqrt, a, b) <= 1.0
  {
    DotSelf(a, |a|);
    DotSelf(b, |b|);
    var A, D, B := NormSq(a), Dot(a, b, |a|), NormSq(b);
    if A != 0.0 && B != 0.0 {
      CauchySchwarz(a, b);
      SqrtPositive(sqrt, A);
      SqrtPositive(sqrt, B);
      QuotientInRange(D, sqrt(A), sqrt(B));
    }
  }

  lemma QuotientInRange(d: real, x: real, y: real)
    requires x > 0.0 && y > 0.0 && d * d <= (x * x) * (y * y)
    ensures -1.0 <= Quotient(d, x, y) <= 1.0
  {
    var s := Product(x, y);
    assert s * s == (x * x) * (y * y);
    SquareBound(d, s);
    RatioBound(d, s);
  }

  lemma SquareBound(d: real, s: real)
    requires s > 0.0 && d * d <= s * s
    ensures -s <= d <= s
  {
    if d > s { var p := Product(d - s, d + s); }
    if d < -s { var p := Product(-d - s, s - d); }
  }

  lemma RatioBound(d: real, s: real)
    requires s > 0.0 && -s <= d <= s
    ensures -1.0 <= d / s <= 1.0
  {
    var q := d / s;
    assert q * s == d;
    if q > 1.0 { var p := Product(q - 1.0, s); }
    if q < -1.0 { var p := Product(-q - 1.0, s); }
  }

  lemma CosineSymmetric(sqrt: real -> real, a: Vec, b: Vec)
    requires IsSqrt(sqrt) && |a| == |b|
    ensures CosineOf(sqrt, a, b) == CosineOf(sqrt, b, a)
  {
    DotSymmetric(a, b, |a|);
    DotSelf(a, |a|);
    DotSelf(b, |b|);
    if NormSq(a) != 0.0 && NormSq(b) != 0.0 {
      SqrtPositive(sqrt, NormSq(a));
      SqrtPositive(sqrt, NormSq(b));
      QuotientSymmetric(Dot(a, b, |a|), sqrt(NormSq(a)), sqrt(NormSq(b)));
    }
  }

  lemma QuotientSymmetric(d: real, x: real, y: real)
    requires x > 0.0 && y > 0.0
    ensures Quotient(d, x, y) == Quotient(d, y, x)
  {
    assert x * y == y * x;
  }

  lemma SqrtUnique(sqrt: real -> real, x: real, r: real)
    requires IsSqrt(sqrt) && r >= 0.0 && r * r == x
    ensures x >= 0.0 && sqrt(x) == r
  {
    var square := Square(r);
    assert IsRoot(sqrt(x), x);
    SameRoot(sqrt(x), r);
  }

  lemma SameRoot(s: real, r: real)
    requires s >= 0.0 && r >= 0.0 && s * s == r * r
    ensures s == r
  {
    assert (s - r) * (s + r) == 0.0;
    if s > r { PositiveProduct(s - r, s + r); }
    if s < r { PositiveProduct(r - s, s + r); }
  }

  lemma SquareOfProduct(c: real, r: real)
    requires c > 0.0 && r > 0.0
    ensures (c * r) * (c * r) == c * c * (r * r) > 0.0
  {
    PositiveProduct(c, r);
    var q := c * r;
    PositiveProduct(q, q);
  }

  lemma ScaledLength(sqrt: real -> real, c: real, a: Vec)
    requires IsSqrt(sqrt) && c > 0.0 && NormSq(a) > 0.0
    ensures NormSq(Scale(c, a)) > 0.0
    ensures sqrt(NormSq(Scale(c, a))) == c * sqrt(NormSq(a)) > 0.0
  {
    NormScale(c, a);
    var A := NormSq(a);
    SqrtPositive(sqrt, A);
    var r := sqrt(A);
    PositiveProduct(c, r);
    SquareOfProduct(c, r);
    SqrtUnique(sqrt, NormSq(Scale(c, a)), c * r);
  }

  lemma ScaledZero(c: real, a: Vec)
    requires NormSq(a) == 0.0
    ensures NormSq(Scale(c, a)) == 0.0
  {
    NormScale(c, a);
    assert c * c * NormSq(a) == c * c * 0.0;
  }

  lemma StretchLeft(sqrt: real -> real, c: real, a: Vec, b: Vec)
    requires IsSqrt(sqrt) && |a| == |b| && c > 0.0 && NormSq(a) > 0.0 && NormSq(b) > 0.0
    ensures CosineOf(sqrt, Scale(c, a), b) == CosineOf(sqrt, a, b)
  {
    DotScale(c, a, b, |a|);
    ScaledLength(sqrt, c, a);
    SqrtPositive(sqrt, NormSq(a));
    SqrtPositive(sqrt, NormSq(b));
    CancelFactor(c, Dot(a, b, |a|), sqrt(NormSq(a)), sqrt(NormSq(b)),
                 Dot(Scale(c, a), b, |a|), sqrt(NormSq(Scale(c, a))));
  }

  /** Cosine does not change when an operand is stretched. */
  lemma CosineScale(sqrt: real -> real, c: real, a: Vec, b: Vec)
    requires IsSqrt(sqrt) && |a| == |b| && c > 0.0
    ensures CosineOf(sqrt, Scale(c, a), b) == CosineOf(sqrt, a, b)
    ensures CosineOf(sqrt, b, Scale(c, a)) == CosineOf(sqrt, b, a)
  {
    CosineSymmetric(sqrt, a, b);
    CosineSymmetric(sqrt, Scale(c, a), b);
    DotSelf(a, |a|);
    DotSelf(b, |b|);
    if NormSq(a) == 0.0 {
      ScaledZero(c, a);
    } else if NormSq(b) != 0.0 {
      StretchLeft(sqrt, c, a, b);
    }
  }

  lemma CancelFactor(c: real, d: real, x: real, y: real, cd: real, cx: real)
    requires c > 0.0 && x > 0.0 && y > 0.0 && cd == c * d && cx == c * x > 0.0
    ensures Quotient(cd, cx, y) == Quotient(d, x, y)
  {
    var s := Product(x, y);
    var cs := Product(c, s);
    assert cx * y == cs;
    var q := d / s;
    assert cd == c * (q * s) == q * cs;
  }

  // ---- normalize ----

  /** a / |a|, and the zero vector when a is zero. */
  ghost function Normalized(sqrt: real -> real, a: Vec): (r: Vec)
    requires IsSqrt(sqrt)
    ensures |r| == |a|
  {
    DotSelf(a, |a|);
    if NormSq(a) == 0.0 then seq(|a|, _ => 0.0)
    else
      SqrtPositive(sqrt, NormSq(a));
      Scale(1.0 / sqrt(NormSq(a)), a)
  }

  /** The first loop of normalize. */
  method SquaredNorm(a: array<real>) returns (normSq: real)
    ensures normSq == NormSq(a[..])
  {
    ghost var v := a[..];
    normSq := 0.0;
    var i := 0;
    while i < a.Length
      invariant 0 <= i <= a.Length
      invariant normSq == Dot(v, v, i)
    {
      normSq := normSq + a[i] * a[i];
      i := i + 1;
    }
  }

  method Normalize(sqrt: real -> real, a: array<real>) returns (out: array<real>)
    requires IsSqrt(sqrt)
    ensures fresh(out) && out.Length == a.Length
    ensures out[..] == Normalized(sqrt, a[..])
  {
    hide Dot;
    var n := a.Length;
    ghost var v := a[..];
    var normSq := SquaredNorm(a);
    out := new real[n](_ => 0.0);
    if normSq == 0.0 {
      assert out[..] == Normalized(sqrt, v);
      return;
    }
    DotSelf(v, n);
    SqrtPositive(sqrt, normSq);
    var inv := 1.0 / sqrt(normSq);
    ghost var scaled := Scale(inv, v);
    var i := 0;
    while i < n
      invariant 0 <= i <= n
      invariant a[..] == v
      invariant forall k :: 0 <= k < i ==> out[k] == scaled[k]
    {
      out[i] := a[i] * inv;
      assert scaled[i] == inv * v[i] == v[i] * inv;
      assert out[i] == scaled[i];
      i := i + 1;
    }
    assert out[..] == scaled;
  }

  /** A normalised vector has length one, unless the input was zero, which stays zero. */
  lemma NormalizedNorm(sqrt: real -> real, a: Vec)
    requires IsSqrt(sqrt)
    ensures NormSq(Normalized(sqrt, a)) == if IsZero(a) then 0.0 else 1.0
    ensures IsZero(Normalized(sqrt, a)) <==> IsZero(a)
  {
    DotSelf(a, |a|);
    var z := Normalized(sqrt, a);
    if IsZero(a) {
      DotSelf(z, |z|);
    } else {
      var r := sqrt(NormSq(a));
      SqrtPositive(sqrt, NormSq(a));
      var c := 1.0 / r;
      NormScale(c, a);
      assert c * r == 1.0;
      assert c * c * (r * r) == (c * r) * (c * r) == 1.0;
      DotSelf(z, |z|);
    }
  }

  /** Scoring against a pre-normalised entry gives the cosine against the raw embedding. */
  lemma CosineNormalized(sqrt: real -> real, q: Vec, v: Vec)
    requires IsSqrt(sqrt) && |q| == |v|
    ensures CosineOf(sqrt, q, Normalized(sqrt, v)) == CosineOf(sqrt, q, v)
  {
    DotSelf(v, |v|);
    if NormSq(v) != 0.0 {
      SqrtPositive(sqrt, NormSq(v));
      var c := 1.0 / sqrt(NormSq(v));
      CosineScale(sqrt, c, v, q);
    } else {
      NormalizedNorm(sqrt, v);
    }
  }

  // ---- topKByCosine ----

  datatype Entry = Entry(recordId: string, record: MemoryRecord, vec: Vec)
  datatype Hit = Hit(recordId: string, record: MemoryRecord, similarity: real)

  predicate Closer(x: Hit, y: Hit) { x.similarity >= y.similarity }

  ghost predicate SameWidth(q: Vec, entries: seq<Entry>) {
    forall i :: 0 <= i < |entries| ==> |entries[i].vec| == |q|
  }

  /** Every entry with a non-zero vector, scored, in index order. */
  ghost function Scored(sqrt: real -> real, q: Vec, entries: seq<Entry>): (s: seq<Hit>)
    requires IsSqrt(sqrt) && SameWidth(q, entries)
  {
    if entries == [] then []
    else
      var last := entries[|entries| - 1];
      Scored(sqrt, q, entries[..|entries| - 1]) +
      if IsZero(last.vec) then [] else [Hit(last.recordId, last.record, CosineOf(sqrt, q, last.vec))]
  }

  /** What is scored is every entry whose vector is not zero, with its cosine to the query. */
  lemma {:induction false} ScoredMeaning(sqrt: real -> real, q: Vec, entries: seq<Entry>, h: Hit)
    requires IsSqrt(sqrt) && SameWidth(q, entries)
    ensures h in Scored(sqrt, q, entries) <==>
            exists i :: 0 <= i < |entries| && !IsZero(entries[i].vec)
                        && h == Hit(entries[i].recordId, entries[i].record, CosineOf(sqrt, q, entries[i].vec))
  {
    hide IsSqrt, CosineOf, IsZero;
    if entries == [] {
    } else {
      var n := |entries| - 1;
      ScoredMeaning(sqrt, q, entries[..n], h);
      forall i | 0 <= i < n ensures entries[..n][i] == entries[i] {
      }
    }
  }

  method IsZeroVector(v: Vec) returns (zero: bool)
    ensures zero == IsZero(v)
  {
    var i := 0;
    while i < |v|
      invariant 0 <= i <= |v|
      invariant forall k :: 0 <= k < i ==> v[k] == 0.0
    {
      if v[i] != 0.0 { return false; }
      i := i + 1;
    }
    return true;
  }

  lemma CloserIsTotal()
    ensures TotalPreorder(Closer)
  {
  }

  /** The sorted list of scored entries, cut at k; equal similarities keep index order. */
  ghost function Nearest(sqrt: real -> real, q: Vec, entries: seq<Entry>, k: int): (hits: seq<Hit>)
    requires IsSqrt(sqrt) && SameWidth(q, entries)
  {
    var scored := Scored(sqrt, q, entries);
    Sort(scored, Closer)[..Kept(k, |scored|)]
  }

  method ScoreEntries(sqrt: real -> real, q: Vec, entries: seq<Entry>) returns (scored: seq<Hit>)
    requires IsSqrt(sqrt) && SameWidth(q, entries)
    ensures scored == Scored(sqrt, q, entries)
  {
    scored := [];
    var i := 0;
    while i < |entries|
      invariant 0 <= i <= |entries|
      invariant SameWidth(q, entries[..i])
      invariant scored == Scored(sqrt, q, entries[..i])
    {
      var zero := IsZeroVector(entries[i].vec);
      if !zero {
        var similarity := Cosine(sqrt, q, entries[i].vec);
        scored := scored + [Hit(entries[i].recordId, entries[i].record, similarity)];
      }
      assert entries[..i + 1][..i] == entries[..i];
      i := i + 1;
    }
    assert entries[..i] == entries;
  }

  method TopKByCosine(sqrt: real -> real, q: Vec, entries: seq<Entry>, k: int) returns (hits: seq<Hit>)
    requires IsSqrt(sqrt) && SameWidth(q, entries)
    ensures hits == Nearest(sqrt, q, entries, k)
    ensures IsTop(hits, Scored(sqrt, q, entries), k, Closer)
    ensures forall i, j :: 0 <= i < j < |hits| ==> hits[i].similarity >= hits[j].similarity
    ensures k >= 0 ==> |hits| <= k
  {
    CloserIsTotal();
    SortCutIsTop(Scored(sqrt, q, entries), k, Closer);
    if k <= 0 { return []; }
    var scored := ScoreEntries(sqrt, q, entries);
    var sorted := Sort(scored, Closer);
    hits := if |sorted| <= k then sorted else sorted[..k];
    assert hits == sorted[..Kept(k, |scored|)];
  }

  /** Pre-normalising the index changes no score, so it changes no ranking. */
  lemma {:induction false} ScoredNormalized(sqrt: real -> real, q: Vec, raw: seq<Entry>, index: seq<Entry>)
    requires IsSqrt(sqrt) && SameWidth(q, raw) && |index| == |raw|
    requires forall i :: 0 <= i < |raw| ==> index[i] == raw[i].(vec := Normalized(sqrt, raw[i].vec))
    ensures SameWidth(q, index)
    ensures Scored(sqrt, q, index) == Scored(sqrt, q, raw)
    ensures forall k :: Nearest(sqrt, q, index, k) == Nearest(sqrt, q, raw, k)
  {
    if raw == [] {
    } else {
      var n := |raw| - 1;
      ScoredNormalized(sqrt, q, raw[..n], index[..n]);
      NormalizedNorm(sqrt, raw[n].vec);
      CosineNormalized(sqrt, q, raw[n].vec);
    }
  }
}
