/** Intra-batch clustering: the connected components of the similarity graph. */
module Clustering {
  import opened MemoryTypes
  import opened Cosine
  import DisjointSets

  datatype Cluster = Cluster(members: seq<nat>, centroid: Option<Vec>)

  /** All embeddings of a batch come from one model, so they have one width. */
  ghost predicate OneWidth(candidates: seq<CandidateMemory>) {
    forall i, j :: 0 <= i < |candidates| && 0 <= j < |candidates|
      && candidates[i].embedding.Some? && candidates[j].embedding.Some?
      ==> |candidates[i].embedding.value| == |candidates[j].embedding.value|
  }

  /** Both candidates have an embedding and their cosine reaches the threshold. */
  ghost predicate Similar(sqrt: real -> real, candidates: seq<CandidateMemory>, threshold: real, i: int, j: int)
    requires IsSqrt(sqrt) && OneWidth(candidates)
  {
    && 0 <= i < |candidates| && 0 <= j < |candidates|
    && candidates[i].embedding.Some? && candidates[j].embedding.Some?
    && CosineOf(sqrt, candidates[i].embedding.value, candidates[j].embedding.value) >= threshold
  }

  // ---- Chains of similar candidates ----

  type Edges = set<(int, int)>

  ghost predicate Joins(edges: Edges, i: int, j: int) {
    (i, j) in edges || (j, i) in edges
  }

  ghost predicate Chain(edges: Edges, path: seq<int>, i: int, j: int) {
    && path != [] && path[0] == i && path[|path| - 1] == j
    && forall k :: 0 <= k < |path| - 1 ==> Joins(edges, path[k], path[k + 1])
  }

  ghost predicate Linked(edges: Edges, i: int, j: int) {
    exists path :: Chain(edges, path, i, j)
  }

  /** A chain of candidates from i to j, each similar to the next. */
  ghost predicate SimilarChain(sqrt: real -> real, candidates: seq<CandidateMemory>, threshold: real,
                               path: seq<int>, i: int, j: int)
    requires IsSqrt(sqrt) && OneWidth(candidates)
  {
    && path != [] && path[0] == i && path[|path| - 1] == j
    && forall k :: 0 <= k < |path| - 1 ==> Similar(sqrt, candidates, threshold, path[k], path[k + 1])
  }

  ghost predicate Connected(sqrt: real -> real, candidates: seq<CandidateMemory>, threshold: real, i: int, j: int)
    requires IsSqrt(sqrt) && OneWidth(candidates)
  {
    exists path :: SimilarChain(sqrt, candidates, threshold, path, i, j)
  }

  lemma LinkedReflexive(edges: Edges, i: int)
    ensures Linked(edges, i, i)
  {
    assert Chain(edges, [i], i, i);
  }

  lemma LinkedEdge(edges: Edges, i: int, j: int)
    requires Joins(edges, i, j)
    ensures Linked(edges, i, j)
  {
    assert Chain(edges, [i, j], i, j);
  }

  lemma LinkedTransitive(edges: Edges, i: int, j: int, k: int)
    requires Linked(edges, i, j) && Linked(edges, j, k)
    ensures Linked(edges, i, k)
  {
    var p :| Chain(edges, p, i, j);
    var q :| Chain(edges, q, j, k);
    var path := p + q[1..];
    forall m | 0 <= m < |path| - 1 ensures Joins(edges, path[m], path[m + 1]) {
      if m >= |p| - 1 {
        assert path[m] == q[m - |p| + 1] && path[m + 1] == q[m - |p| + 2];
      }
    }
    assert Chain(edges, path, i, k);
  }

  lemma LinkedMonotone(edges: Edges, more: Edges, i: int, j: int)
    requires edges <= more && Linked(edges, i, j)
    ensures Linked(more, i, j)
  {
    var p :| Chain(edges, p, i, j);
    assert Chain(more, p, i, j);
  }

  /** rep describes the components of the graph seen so far. */
  ghost predicate Components(rep: seq<int>, edges: Edges) {
    && (forall e :: e in edges ==> 0 <= e.0 < |rep| && 0 <= e.1 < |rep| && rep[e.0] == rep[e.1])
    && (forall i, j :: 0 <= i < |rep| && 0 <= j < |rep| && rep[i] == rep[j] ==> Linked(edges, i, j))
  }

  lemma {:induction false} ChainStaysInClass(rep: seq<int>, edges: Edges, path: seq<int>, i: int, j: int)
    requires Components(rep, edges) && Chain(edges, path, i, j)
    requires 0 <= i < |rep|
    ensures 0 <= j < |rep| && rep[i] == rep[j]
    decreases |path|
  {
    if |path| > 1 {
      assert Joins(edges, path[0], path[1]);
      var rest := path[1..];
      assert forall k :: 0 <= k < |rest| - 1 ==> Joins(edges, rest[k], rest[k + 1]) by {
        forall k | 0 <= k < |rest| - 1 ensures Joins(edges, rest[k], rest[k + 1]) {
          assert Joins(edges, path[k + 1], path[k + 1 + 1]);
        }
      }
      ChainStaysInClass(rep, edges, rest, path[1], j);
    }
  }

  lemma ComponentsAreLinks(rep: seq<int>, edges: Edges, i: int, j: int)
    requires Components(rep, edges) && 0 <= i < |rep| && 0 <= j < |rep|
    ensures rep[i] == rep[j] <==> Linked(edges, i, j)
  {
    if Linked(edges, i, j) {
      var p :| Chain(edges, p, i, j);
      ChainStaysInClass(rep, edges, p, i, j);
    }
  }

  /** Joining the classes of a and b accounts for the edge (a, b) and for nothing else. */
  lemma UnionAddsEdge(rep: seq<int>, rep': seq<int>, edges: Edges, a: int, b: int)
    requires Components(rep, edges) && |rep'| == |rep| && 0 <= a < |rep| && 0 <= b < |rep|
    requires forall i, j :: 0 <= i < |rep| && 0 <= j < |rep| ==>
               (rep'[i] == rep'[j] <==>
                 || rep[i] == rep[j]
                 || (rep[i] == rep[a] && rep[j] == rep[b])
                 || (rep[i] == rep[b] && rep[j] == rep[a]))
    ensures Components(rep', edges + {(a, b)})
  {
    var more := edges + {(a, b)};
    forall i, j | 0 <= i < |rep| && 0 <= j < |rep| && rep'[i] == rep'[j] ensures Linked(more, i, j) {
      if rep[i] == rep[j] {
        LinkedMonotone(edges, more, i, j);
      } else {
        var x, y := if rep[i] == rep[a] then a else b, if rep[i] == rep[a] then b else a;
        LinkedMonotone(edges, more, i, x);
        LinkedEdge(more, x, y);
        LinkedMonotone(edges, more, y, j);
        LinkedTransitive(more, i, x, y);
        LinkedTransitive(more, i, y, j);
      }
    }
  }

  /** The pairs the scan has visited once it reaches (row, column). */
  ghost predicate Visited(row: int, column: int, i: int, j: int) {
    i < j && (i < row || (i == row && j < column))
  }

  ghost predicate ScanEdges(sqrt: real -> real, candidates: seq<CandidateMemory>, threshold: real,
                            edges: Edges, row: int, column: int)
    requires IsSqrt(sqrt) && OneWidth(candidates)
  {
    && (forall e :: e in edges ==> e.0 < e.1 && Similar(sqrt, candidates, threshold, e.0, e.1))
    && (forall i, j :: Visited(row, column, i, j) && Similar(sqrt, candidates, threshold, i, j) ==> (i, j) in edges)
  }

  lemma SimilarSymmetric(sqrt: real -> real, candidates: seq<CandidateMemory>, threshold: real, i: int, j: int)
    requires IsSqrt(sqrt) && OneWidth(candidates) && Similar(sqrt, candidates, threshold, i, j)
    ensures Similar(sqrt, candidates, threshold, j, i)
  {
    CosineSymmetric(sqrt, candidates[i].embedding.value, candidates[j].embedding.value);
  }

  /** After the full scan, links and chains of similar candidates are the same thing. */
  lemma LinkedIsConnected(sqrt: real -> real, candidates: seq<CandidateMemory>, threshold: real, edges: Edges, i: int,
                          j: int)
    requires IsSqrt(sqrt) && OneWidth(candidates)
    requires ScanEdges(sqrt, candidates, threshold, edges, |candidates|, 0)
    ensures Linked(edges, i, j) <==> Connected(sqrt, candidates, threshold, i, j)
  {
    if Linked(edges, i, j) {
      var p :| Chain(edges, p, i, j);
      forall k | 0 <= k < |p| - 1 ensures Similar(sqrt, candidates, threshold, p[k], p[k + 1]) {
        assert Joins(edges, p[k], p[k + 1]);
        if (p[k], p[k + 1]) !in edges {
          SimilarSymmetric(sqrt, candidates, threshold, p[k + 1], p[k]);
        }
      }
      assert SimilarChain(sqrt, candidates, threshold, p, i, j);
    }
    if Connected(sqrt, candidates, threshold, i, j) {
      var p :| SimilarChain(sqrt, candidates, threshold, p, i, j);
      SimilarChainLinks(sqrt, candidates, threshold, edges, p, i, j);
    }
  }

  lemma {:induction false} SimilarChainLinks(sqrt: real -> real, candidates: seq<CandidateMemory>, threshold: real,
                                             edges: Edges, path: seq<int>, i: int, j: int)
    requires IsSqrt(sqrt) && OneWidth(candidates)
    requires ScanEdges(sqrt, candidates, threshold, edges, |candidates|, 0)
    requires SimilarChain(sqrt, candidates, threshold, path, i, j)
    ensures Linked(edges, i, j)
    decreases |path|
  {
    LinkedReflexive(edges, j);
    if |path| > 1 {
      var a, b, rest := path[0], path[1], path[1..];
      assert Similar(sqrt, candidates, threshold, a, path[0 + 1]);
      SimilarSymmetric(sqrt, candidates, threshold, a, b);
      forall k | 0 <= k < |rest| - 1 ensures Similar(sqrt, candidates, threshold, rest[k], rest[k + 1]) {
        assert Similar(sqrt, candidates, threshold, path[k + 1], path[k + 1 + 1]);
      }
      SimilarChainLinks(sqrt, candidates, threshold, edges, rest, b, j);
      if a != b {
        assert Visited(|candidates|, 0, a, b) || Visited(|candidates|, 0, b, a);
        LinkedEdge(edges, a, b);
        LinkedTransitive(edges, a, b, j);
      }
    }
  }

  // ---- Collecting the members of each root ----

  /** The indices below n whose root is r, in ascending order. */
  ghost function MembersOf(rep: seq<int>, r: int, n: nat): seq<nat>
    requires n <= |rep|
  {
    if n == 0 then [] else MembersOf(rep, r, n - 1) + if rep[n - 1] == r then [n - 1] else []
  }

  ghost predicate Ascending(s: seq<nat>) {
    forall i, j :: 0 <= i < j < |s| ==> s[i] < s[j]
  }

  lemma {:induction false} MembersOfMeaning(rep: seq<int>, r: int, n: nat)
    requires n <= |rep|
    ensures Ascending(MembersOf(rep, r, n))
    ensures forall k :: k in MembersOf(rep, r, n) <==> 0 <= k < n && rep[k] == r
  {
    if n == 0 {
    } else {
      MembersOfMeaning(rep, r, n - 1);
      var rest := MembersOf(rep, r, n - 1);
      forall i | 0 <= i < |rest| ensures rest[i] < n - 1 {
        assert rest[i] in rest;
      }
      AscendingSnoc(rest, n - 1);
    }
  }

  lemma AscendingSnoc(members: seq<nat>, last: nat)
    requires Ascending(members) && forall i :: 0 <= i < |members| ==> members[i] < last
    ensures Ascending(members + [last])
  {
  }

  // ---- Centroids ----

  /** Coordinate k of the sum of the first m members' embeddings. */
  ghost function Sum(candidates: seq<CandidateMemory>, members: seq<nat>, m: nat, k: nat): real
    requires m <= |members| && forall x :: 0 <= x < m ==> members[x] < |candidates|
    requires forall x :: 0 <= x < m ==>
               candidates[members[x]].embedding.Some? && k < |candidates[members[x]].embedding.value|
  {
    if m == 0 then 0.0 else Sum(candidates, members, m - 1, k) + candidates[members[m - 1]].embedding.value[k]
  }

  ghost predicate AllEmbedded(candidates: seq<CandidateMemory>, members: seq<nat>) {
    forall x :: 0 <= x < |members| ==> members[x] < |candidates| && candidates[members[x]].embedding.Some?
  }

  ghost function Mean(candidates: seq<CandidateMemory>, members: seq<nat>): (mean: Vec)
    requires members != [] && AllEmbedded(candidates, members) && OneWidth(candidates)
  {
    seq(|candidates[members[0]].embedding.value|,
        k requires 0 <= k < |candidates[members[0]].embedding.value| =>
          Sum(candidates, members, |members|, k) * (1.0 / |members| as real))
  }

  /** Null as soon as one member has no embedding, otherwise the normalised mean. */
  ghost function CentroidOf(sqrt: real -> real, candidates: seq<CandidateMemory>, members: seq<nat>): Option<Vec>
    requires IsSqrt(sqrt) && OneWidth(candidates) && members != []
  {
    if AllEmbedded(candidates, members) then Some(Normalized(sqrt, Mean(candidates, members))) else None
  }

  /** The members have embeddings of this width. */
  ghost predicate Embeds(candidates: seq<CandidateMemory>, members: seq<nat>, width: nat) {
    forall x :: 0 <= x < |members| ==> EmbedsOne(candidates, members[x], width)
  }

  ghost predicate EmbedsOne(candidates: seq<CandidateMemory>, i: nat, width: nat) {
    i < |candidates| && candidates[i].embedding.Some? && |candidates[i].embedding.value| == width
  }

  /** The dot products of the members' embeddings with q, summed. */
  ghost function TotalDot(candidates: seq<CandidateMemory>, members: seq<nat>, q: Vec): real
    requires Embeds(candidates, members, |q|)
  {
    if members == [] then 0.0
    else
      var n := |members| - 1;
      assert EmbedsOne(candidates, members[n], |q|);
      TotalDot(candidates, members[..n], q) + Dot(candidates[members[n]].embedding.value, q, |q|)
  }

  /** Stretched by this factor, the vector is the sum of the embeddings, as every dot product shows. */
  ghost predicate StretchesTo(candidates: seq<CandidateMemory>, members: seq<nat>, centroid: Vec, factor: real)
    requires Embeds(candidates, members, |centroid|)
  {
    forall q: Vec :: |q| == |centroid| ==> factor * Dot(centroid, q, |q|) == TotalDot(candidates, members, q)
  }

  /** The unit vector along the sum of the embeddings, or zero when that sum is zero. */
  ghost predicate PointsAlong(candidates: seq<CandidateMemory>, members: seq<nat>, centroid: Vec)
    requires Embeds(candidates, members, |centroid|)
  {
    || (NormSq(centroid) == 1.0 && exists factor :: factor > 0.0 && StretchesTo(candidates, members, centroid, factor))
    || (IsZero(centroid) && forall q: Vec :: |q| == |centroid| ==> TotalDot(candidates, members, q) == 0.0)
  }

  ghost function SumVec(candidates: seq<CandidateMemory>, members: seq<nat>, m: nat, width: nat): (r: Vec)
    requires m <= |members| && Embeds(candidates, members, width)
    ensures |r| == width
  {
    assert forall x :: 0 <= x < m ==> EmbedsOne(candidates, members[x], width);
    seq(width, k requires 0 <= k < width => Sum(candidates, members, m, k))
  }

  lemma {:induction false} DotSum(candidates: seq<CandidateMemory>, members: seq<nat>, m: nat, q: Vec)
    requires m <= |members| && Embeds(candidates, members, |q|)
    ensures Dot(SumVec(candidates, members, m, |q|), q, |q|) == TotalDot(candidates, members[..m], q)
  {
    var w := |q|;
    if m == 0 {
      ZeroDot(SumVec(candidates, members, 0, w), q, w);
    } else {
      assert EmbedsOne(candidates, members[m - 1], w);
      var before, e := SumVec(candidates, members, m - 1, w), candidates[members[m - 1]].embedding.value;
      DotSum(candidates, members, m - 1, q);
      DotAlong(before, 1.0, e, q, w);
      assert SumVec(candidates, members, m, w) == Along(before, 1.0, e);
      assert members[..m][..m - 1] == members[..m - 1];
    }
  }

  lemma Cancel(n: real, i: real, x: real)
    requires n * i == 1.0
    ensures n * (i * x) == x
  {
    assert n * (i * x) == (n * i) * x;
  }

  lemma CancelBoth(n: real, r: real, z: real, y: real, x: real)
    requires r * z == y && n * y == x
    ensures (n * r) * z == x
  {
    assert (n * r) * z == n * (r * z);
  }

  /** Dividing by n and then by r is undone by multiplying with their product. */
  lemma Unscale(n: real, r: real, x: real) returns (y: real, z: real)
    requires n > 0.0 && r > 0.0
    ensures y == (1.0 / n) * x && z == (1.0 / r) * y
    ensures n * y == x && (n * r) * z == x
  {
    y := (1.0 / n) * x;
    z := (1.0 / r) * y;
    Cancel(n, 1.0 / n, x);
    Cancel(r, 1.0 / r, y);
    CancelBoth(n, r, z, y, x);
  }

  lemma MeanDot(candidates: seq<CandidateMemory>, members: seq<nat>, q: Vec)
    requires members != [] && AllEmbedded(candidates, members) && OneWidth(candidates)
    requires Embeds(candidates, members, |q|)
    ensures |Mean(candidates, members)| == |q|
    ensures Dot(Mean(candidates, members), q, |q|) ==
            (1.0 / |members| as real) * TotalDot(candidates, members, q)
  {
    hide Mean, Dot, TotalDot, Sum, Embeds, AllEmbedded, OneWidth;
    var n, w := |members|, |q|;
    DotSum(candidates, members, n, q);
    DotScale(1.0 / n as real, SumVec(candidates, members, n, w), q, w);
    MeanIsScaled(candidates, members, w);
    assert members[..n] == members;
  }

  lemma MeanIsScaled(candidates: seq<CandidateMemory>, members: seq<nat>, width: nat)
    requires members != [] && AllEmbedded(candidates, members) && OneWidth(candidates)
    requires Embeds(candidates, members, width)
    ensures Mean(candidates, members) ==
            Scale(1.0 / |members| as real, SumVec(candidates, members, |members|, width))
  {
    assert EmbedsOne(candidates, members[0], width);
    var mean, scaled := Mean(candidates, members),
                        Scale(1.0 / |members| as real, SumVec(candidates, members, |members|, width));
    assert |mean| == |scaled| == width;
    forall k | 0 <= k < width ensures mean[k] == scaled[k] {
      assert SumVec(candidates, members, |members|, width)[k] == Sum(candidates, members, |members|, k);
    }
  }

  lemma ZeroMean(candidates: seq<CandidateMemory>, members: seq<nat>, q: Vec)
    requires members != [] && AllEmbedded(candidates, members) && OneWidth(candidates)
    requires Embeds(candidates, members, |q|) && IsZero(Mean(candidates, members))
    ensures TotalDot(candidates, members, q) == 0.0
  {
    hide Mean, TotalDot, Embeds, AllEmbedded, OneWidth, Dot;
    MeanDot(candidates, members, q);
    ZeroDot(Mean(candidates, members), q, |q|);
    var y, z := Unscale(|members| as real, 1.0, TotalDot(candidates, members, q));
  }

  lemma StretchedMean(candidates: seq<CandidateMemory>, members: seq<nat>, r: real, q: Vec)
    requires members != [] && AllEmbedded(candidates, members) && OneWidth(candidates)
    requires Embeds(candidates, members, |q|) && r > 0.0
    ensures |Mean(candidates, members)| == |q|
    ensures (|members| as real * r) * Dot(Scale(1.0 / r, Mean(candidates, members)), q, |q|) ==
            TotalDot(candidates, members, q)
  {
    hide Mean, TotalDot, Embeds, AllEmbedded, OneWidth, Dot, Scale;
    MeanDot(candidates, members, q);
    DotScale(1.0 / r, Mean(candidates, members), q, |q|);
    var y, z := Unscale(|members| as real, r, TotalDot(candidates, members, q));
  }

  lemma MeanWidth(candidates: seq<CandidateMemory>, members: seq<nat>)
    requires members != [] && AllEmbedded(candidates, members) && OneWidth(candidates)
    ensures Embeds(candidates, members, |Mean(candidates, members)|)
  {
    forall x | 0 <= x < |members| ensures EmbedsOne(candidates, members[x], |Mean(candidates, members)|) {
    }
  }

  /** The normalised mean points along the sum of the embeddings. */
  lemma CentroidPointsAlong(sqrt: real -> real, candidates: seq<CandidateMemory>, members: seq<nat>)
    requires IsSqrt(sqrt) && members != [] && AllEmbedded(candidates, members) && OneWidth(candidates)
    ensures var centroid := Normalized(sqrt, Mean(candidates, members));
            Embeds(candidates, members, |centroid|) && PointsAlong(candidates, members, centroid)
  {
    hide Mean, TotalDot, Embeds, AllEmbedded, OneWidth, Dot, IsSqrt;
    var mean, n := Mean(candidates, members), |members| as real;
    var centroid := Normalized(sqrt, mean);
    MeanWidth(candidates, members);
    NormalizedNorm(sqrt, mean);
    DotSelf(mean, |mean|);
    if NormSq(mean) == 0.0 {
      forall q: Vec | |q| == |mean| ensures TotalDot(candidates, members, q) == 0.0 {
        ZeroMean(candidates, members, q);
      }
    } else {
      SqrtPositive(sqrt, NormSq(mean));
      var r := sqrt(NormSq(mean));
      PositiveProduct(n, r);
      forall q: Vec | |q| == |centroid| ensures (n * r) * Dot(centroid, q, |q|) == TotalDot(candidates, members, q) {
        StretchedMean(candidates, members, r, q);
      }
      assert StretchesTo(candidates, members, centroid, n * r);
    }
  }

  lemma OneDirection(d: real, f: real, g: real)
    requires f > 0.0 && g > 0.0 && f == g * d && f * d == g
    ensures d == 1.0
  {
    assert f * (1.0 - d * d) == f - (f * d) * d == 0.0;
    assert d > 0.0 by { if d <= 0.0 { NonPositive(g, d); } }
    assert (1.0 - d) * (1.0 + d) == 0.0;
  }

  lemma NonPositive(g: real, d: real)
    requires g > 0.0 && d <= 0.0
    ensures g * d <= 0.0
  {
  }

  lemma UnitsAgree(a: Vec, b: Vec)
    requires |a| == |b| && NormSq(a) == 1.0 && NormSq(b) == 1.0 && Dot(a, b, |a|) == 1.0
    ensures a == b
  {
    var d := Along(a, -1.0, b);
    QuadraticIsNorm(a, -1.0, b);
    DotSelf(d, |d|);
    forall i | 0 <= i < |a| ensures a[i] == b[i] {
      assert d[i] == 0.0;
    }
  }

  lemma Factor(candidates: seq<CandidateMemory>, members: seq<nat>, a: Vec) returns (f: real)
    requires Embeds(candidates, members, |a|) && PointsAlong(candidates, members, a) && NormSq(a) == 1.0
    ensures f > 0.0 && StretchesTo(candidates, members, a, f)
  {
    hide TotalDot, Dot, Embeds;
    UnitOrZero(candidates, members, a);
    f :| f > 0.0 && StretchesTo(candidates, members, a, f);
  }

  lemma UnitOrZero(candidates: seq<CandidateMemory>, members: seq<nat>, a: Vec)
    requires Embeds(candidates, members, |a|) && PointsAlong(candidates, members, a)
    ensures NormSq(a) == 1.0 <==> TotalDot(candidates, members, a) > 0.0
    ensures NormSq(a) == 1.0 <==> !IsZero(a)
    ensures NormSq(a) != 1.0 ==> forall q: Vec :: |q| == |a| ==> TotalDot(candidates, members, q) == 0.0
  {
    hide TotalDot, Dot, Embeds;
    DotSelf(a, |a|);
    if f :| f > 0.0 && StretchesTo(candidates, members, a, f) {
      assert f * Dot(a, a, |a|) == TotalDot(candidates, members, a);
    }
  }

  /** The centroid depends on the sum of the embeddings only. */
  lemma CentroidUnique(candidates: seq<CandidateMemory>, members: seq<nat>, others: seq<nat>, a: Vec, b: Vec)
    requires |a| == |b| && Embeds(candidates, members, |a|) && Embeds(candidates, others, |a|)
    requires forall q: Vec :: |q| == |a| ==> TotalDot(candidates, members, q) == TotalDot(candidates, others, q)
    requires PointsAlong(candidates, members, a) && PointsAlong(candidates, others, b)
    ensures a == b
  {
    hide TotalDot, Dot, PointsAlong, Embeds;
    UnitOrZero(candidates, members, a);
    UnitOrZero(candidates, others, b);
    if NormSq(a) == 1.0 && NormSq(b) == 1.0 {
      var f := Factor(candidates, members, a);
      var g := Factor(candidates, others, b);
      assert f * NormSq(a) == g * Dot(b, a, |a|) && f * Dot(a, b, |a|) == g * NormSq(b);
      DotSymmetric(a, b, |a|);
      OneDirection(Dot(a, b, |a|), f, g);
      UnitsAgree(a, b);
    }
  }

  ghost function Without(members: seq<nat>, j: nat): seq<nat>
    requires j < |members|
  {
    members[..j] + members[j + 1..]
  }

  lemma WithoutOne(members: seq<nat>, j: nat)
    requires j < |members|
    ensures multiset(Without(members, j)) == multiset(members) - multiset{members[j]}
  {
    assert members == members[..j] + [members[j]] + members[j + 1..];
  }

  /** Where the last member is among the others, and that the rest still agree. */
  lemma LastAmong(members: seq<nat>, others: seq<nat>) returns (j: nat)
    requires members != [] && multiset(members) == multiset(others)
    ensures j < |others| && others[j] == members[|members| - 1]
    ensures multiset(members[..|members| - 1]) == multiset(Without(others, j))
    ensures Without(members, |members| - 1) == members[..|members| - 1]
  {
    var n := |members| - 1;
    WithoutOne(members, n);
    assert Without(members, n) == members[..n];
    assert members[n] in multiset(others);
    j :| 0 <= j < |others| && others[j] == members[n];
    WithoutOne(others, j);
  }

  lemma {:induction false} TotalDotWithout(candidates: seq<CandidateMemory>, members: seq<nat>, j: nat, q: Vec)
    requires Embeds(candidates, members, |q|) && j < |members|
    ensures Embeds(candidates, Without(members, j), |q|) && EmbedsOne(candidates, members[j], |q|)
    ensures TotalDot(candidates, members, q) ==
            TotalDot(candidates, Without(members, j), q) + Dot(candidates[members[j]].embedding.value, q, |q|)
  {
    hide Dot;
    var n := |members| - 1;
    if j == n {
      assert Without(members, n) == members[..n];
    } else {
      TotalDotWithout(candidates, members[..n], j, q);
      assert Without(members, j) == Without(members[..n], j) + [members[n]];
      assert Without(members, j)[..n - 1] == Without(members[..n], j);
    }
  }

  /**
   * Null exactly when some member has no embedding, and otherwise the unit vector along the sum of the embeddings, zero
   * if that sum is zero.
   */
  ghost predicate IsCentroid(candidates: seq<CandidateMemory>, members: seq<nat>, centroid: Option<Vec>) {
    match centroid
    case None => exists x :: 0 <= x < |members| && members[x] < |candidates| && candidates[members[x]].embedding.None?
    case Some(v) => Embeds(candidates, members, |v|) && PointsAlong(candidates, members, v)
  }

  lemma {:induction false} TotalDotPermuted(candidates: seq<CandidateMemory>, members: seq<nat>, others: seq<nat>,
                                            q: Vec)
    requires multiset(members) == multiset(others)
    requires Embeds(candidates, members, |q|) && Embeds(candidates, others, |q|)
    ensures TotalDot(candidates, members, q) == TotalDot(candidates, others, q)
    decreases members
  {
    hide Dot, Embeds, Without;
    if members == [] {
      assert |others| == |multiset(others)| == 0;
    } else {
      var n := |members| - 1;
      var j := LastAmong(members, others);
      TotalDotWithout(candidates, others, j, q);
      TotalDotWithout(candidates, members, n, q);
      TotalDotPermuted(candidates, members[..n], Without(others, j), q);
    }
  }

  /** The centroid does not depend on the order of the members. */
  lemma CentroidIgnoresOrder(sqrt: real -> real, candidates: seq<CandidateMemory>, members: seq<nat>,
                             others: seq<nat>)
    requires IsSqrt(sqrt) && members != [] && others != [] && OneWidth(candidates)
    requires AllEmbedded(candidates, members) && multiset(members) == multiset(others)
    ensures CentroidOf(sqrt, candidates, members) == CentroidOf(sqrt, candidates, others)
  {
    hide Mean, Normalized, IsSqrt, OneWidth, TotalDot, PointsAlong;
    assert forall m :: m in members <==> m in multiset(members);
    assert forall m :: m in others <==> m in multiset(others);
    forall x | 0 <= x < |others| ensures others[x] < |candidates| && candidates[others[x]].embedding.Some? {
      assert others[x] in members;
    }
    var a, b := CentroidOf(sqrt, candidates, members).value, CentroidOf(sqrt, candidates, others).value;
    CentroidPointsAlong(sqrt, candidates, members);
    CentroidPointsAlong(sqrt, candidates, others);
    assert EmbedsOne(candidates, members[0], |a|) && members[0] in others;
    var y :| 0 <= y < |others| && others[y] == members[0];
    assert EmbedsOne(candidates, others[y], |b|);
    forall q: Vec | |q| == |a| ensures TotalDot(candidates, members, q) == TotalDot(candidates, others, q) {
      TotalDotPermuted(candidates, members, others, q);
    }
    CentroidUnique(candidates, members, others, a, b);
  }

  lemma CentroidMeaning(sqrt: real -> real, candidates: seq<CandidateMemory>, members: seq<nat>)
    requires IsSqrt(sqrt) && OneWidth(candidates) && members != []
    requires forall x :: 0 <= x < |members| ==> members[x] < |candidates|
    ensures IsCentroid(candidates, members, CentroidOf(sqrt, candidates, members))
  {
    hide Mean, Normalized, IsSqrt, OneWidth, PointsAlong, Embeds;
    if AllEmbedded(candidates, members) { CentroidPointsAlong(sqrt, candidates, members); }
  }

  method Accumulate(sum: array<real>, e: Vec)
    requires sum.Length == |e|
    modifies sum
    ensures forall k :: 0 <= k < |e| ==> sum[k] == old(sum[k]) + e[k]
  {
    var k := 0;
    while k < |e|
      invariant 0 <= k <= |e|
      invariant forall x :: 0 <= x < k ==> sum[x] == old(sum[x]) + e[x]
      invariant forall x :: k <= x < |e| ==> sum[x] == old(sum[x])
    {
      sum[k] := sum[k] + e[k];
      k := k + 1;
    }
  }

  method ScaleBy(sum: array<real>, c: real) returns (mean: array<real>)
    ensures fresh(mean) && mean.Length == sum.Length
    ensures forall k :: 0 <= k < sum.Length ==> mean[k] == sum[k] * c
  {
    mean := new real[sum.Length](_ => 0.0);
    var k := 0;
    while k < sum.Length
      invariant 0 <= k <= sum.Length
      invariant forall x :: 0 <= x < k ==> mean[x] == sum[x] * c
    {
      mean[k] := sum[k] * c;
      k := k + 1;
    }
  }

  method ComputeCentroid(sqrt: real -> real, candidates: seq<CandidateMemory>, members: seq<nat>)
    returns (centroid: Option<Vec>)
    requires IsSqrt(sqrt) && OneWidth(candidates)
    requires members != [] && forall x :: 0 <= x < |members| ==> members[x] < |candidates|
    ensures centroid == CentroidOf(sqrt, candidates, members)
    ensures IsCentroid(candidates, members, centroid)
  {
    hide IsCentroid, PointsAlong, Embeds, TotalDot, Dot, IsSqrt, Normalized;
    CentroidMeaning(sqrt, candidates, members);
    var first := candidates[members[0]].embedding;
    if first.None? { return None; }
    var dims := |first.value|;
    var sum := new real[dims](_ => 0.0);
    var m := 0;
    while m < |members|
      invariant 0 <= m <= |members|
      invariant forall x :: 0 <= x < m ==>
                  candidates[members[x]].embedding.Some? && |candidates[members[x]].embedding.value| == dims
      invariant forall k :: 0 <= k < dims ==> sum[k] == Sum(candidates, members, m, k)
    {
      var e := candidates[members[m]].embedding;
      if e.None? { return None; }
      Accumulate(sum, e.value);
      m := m + 1;
    }
    var mean := ScaleBy(sum, 1.0 / |members| as real);
    ghost var exact := Mean(candidates, members);
    assert forall k :: 0 <= k < dims ==> mean[..][k] == exact[k];
    assert mean[..] == exact;
    var out := Normalize(sqrt, mean);
    return Some(out[..]);
  }

  /** A cluster whose members share one embedding points exactly where that embedding points. */
  lemma IdenticalMembersCentroid(sqrt: real -> real, candidates: seq<CandidateMemory>, members: seq<nat>, e: Vec)
    requires IsSqrt(sqrt) && OneWidth(candidates)
    requires members != [] && AllEmbedded(candidates, members)
    requires forall x :: 0 <= x < |members| ==> candidates[members[x]].embedding.value == e
    ensures CentroidOf(sqrt, candidates, members) == Some(Normalized(sqrt, e))
  {
    var mean := Mean(candidates, members);
    forall k | 0 <= k < |e| ensures mean[k] == e[k] {
      SumOfEqual(candidates, members, |members|, k, e[k]);
      var n := |members| as real;
      assert n * e[k] * (1.0 / n) == e[k];
    }
    assert mean == e;
  }

  lemma {:induction false} SumOfEqual(candidates: seq<CandidateMemory>, members: seq<nat>, m: nat, k: nat, v: real)
    requires m <= |members| && forall x :: 0 <= x < m ==> members[x] < |candidates|
    requires forall x :: 0 <= x < m ==>
               candidates[members[x]].embedding.Some? && k < |candidates[members[x]].embedding.value|
    requires forall x :: 0 <= x < m ==> candidates[members[x]].embedding.value[k] == v
    ensures Sum(candidates, members, m, k) == m as real * v
  {
    if m == 0 {
    } else {
      SumOfEqual(candidates, members, m - 1, k, v);
    }
  }

  // ---- The main method ----

  ghost predicate InCluster(clusters: seq<Cluster>, x: int, i: int) {
    0 <= x < |clusters| && i in clusters[x].members
  }

  /** Members are ascending indices below n, and every index is in exactly one cluster. */
  ghost predicate Partition(clusters: seq<Cluster>, n: nat) {
    && (forall x :: 0 <= x < |clusters| ==> clusters[x].members != [] && Ascending(clusters[x].members))
    && (forall x, i :: InCluster(clusters, x, i) ==> 0 <= i < n)
    && (forall i :: 0 <= i < n ==> Covered(clusters, i))
    && (forall x, y, i :: InCluster(clusters, x, i) && InCluster(clusters, y, i) ==> x == y)
  }

  ghost predicate Covered(clusters: seq<Cluster>, i: int) {
    exists x :: InCluster(clusters, x, i)
  }

  /** Cluster x's members are exactly the indices of one root. */
  ghost predicate FromRoots(rep: seq<int>, clusters: seq<Cluster>, order: seq<int>) {
    && |order| == |clusters|
    && (forall x :: 0 <= x < |order| ==> clusters[x].members == MembersOf(rep, order[x], |rep|))
    && (forall x, y :: 0 <= x < y < |order| ==> order[x] != order[y])
    && (forall i :: 0 <= i < |rep| ==> rep[i] in order)
  }

  method IntraBatchCluster(sqrt: real -> real, candidates: seq<CandidateMemory>, threshold: real)
    returns (clusters: seq<Cluster>)
    requires IsSqrt(sqrt) && OneWidth(candidates)
    ensures Partition(clusters, |candidates|)
    // Clusters come in the order of their smallest members.
    ensures forall x, y :: 0 <= x < y < |clusters| ==> clusters[x].members[0] < clusters[y].members[0]
    // Two indices share a cluster exactly when a chain of similar candidates joins them.
    ensures forall x, i, j :: InCluster(clusters, x, i) && 0 <= j < |candidates| ==>
              (InCluster(clusters, x, j) <==> Connected(sqrt, candidates, threshold, i, j))
    // A candidate without an embedding is alone; every centroid is the normalised mean or null.
    ensures forall x, i :: InCluster(clusters, x, i) && candidates[i].embedding.None? ==>
              clusters[x] == Cluster([i], None)
    ensures forall x :: 0 <= x < |clusters| ==>
              clusters[x].centroid == CentroidOf(sqrt, candidates, clusters[x].members)
    ensures forall x :: 0 <= x < |clusters| ==> IsCentroid(candidates, clusters[x].members, clusters[x].centroid)
  {
    hide IsCentroid;
    if |candidates| == 0 { return []; }
    var dsu, edges := LinkSimilar(sqrt, candidates, threshold);
    ghost var rep := dsu.rep;
    var rootToMembers, order := GroupByRoot(dsu);
    clusters := EmitClusters(sqrt, candidates, rep, rootToMembers, order);
    RootsPartition(rep, clusters, order);
    forall x, i, j | InCluster(clusters, x, i) && 0 <= j < |candidates|
      ensures InCluster(clusters, x, j) <==> Connected(sqrt, candidates, threshold, i, j)
    {
      SharedClusterIsConnected(sqrt, candidates, threshold, rep, edges, clusters, order, x, i, j);
    }
    forall x, i | InCluster(clusters, x, i) && candidates[i].embedding.None?
      ensures clusters[x] == Cluster([i], None)
    {
      IsolatedCluster(sqrt, candidates, threshold, clusters, x, i);
    }
  }

  /** The pairwise scan: one union for every similar pair. */
  method LinkSimilar(sqrt: real -> real, candidates: seq<CandidateMemory>, threshold: real)
    returns (dsu: DisjointSets.UnionFind, ghost edges: Edges)
    requires IsSqrt(sqrt) && OneWidth(candidates)
    ensures fresh(dsu) && fresh(dsu.parent) && fresh(dsu.rank) && dsu.Valid() && dsu.n == |candidates|
    ensures Components(dsu.rep, edges)
    ensures ScanEdges(sqrt, candidates, threshold, edges, |candidates|, 0)
  {
    var n := |candidates|;
    dsu := new DisjointSets.UnionFind(n);
    edges := {};
    forall i, j | 0 <= i < n && 0 <= j < n && dsu.rep[i] == dsu.rep[j] ensures Linked(edges, i, j) {
      LinkedReflexive(edges, i);
    }
    var i := 0;
    while i < n
      invariant 0 <= i <= n
      invariant dsu.Valid() && dsu.n == n && fresh(dsu) && fresh(dsu.parent) && fresh(dsu.rank)
      invariant Components(dsu.rep, edges)
      invariant ScanEdges(sqrt, candidates, threshold, edges, i, 0)
    {
      edges := LinkRow(sqrt, candidates, threshold, dsu, edges, i);
      i := i + 1;
    }
  }

  method LinkRow(sqrt: real -> real, candidates: seq<CandidateMemory>, threshold: real,
                 dsu: DisjointSets.UnionFind, ghost before: Edges, i: nat)
    returns (ghost edges: Edges)
    requires IsSqrt(sqrt) && OneWidth(candidates) && i < |candidates|
    requires dsu.Valid() && dsu.n == |candidates|
    requires Components(dsu.rep, before) && ScanEdges(sqrt, candidates, threshold, before, i, 0)
    modifies dsu, dsu.parent, dsu.rank
    ensures dsu.Valid()
    ensures Components(dsu.rep, edges) && ScanEdges(sqrt, candidates, threshold, edges, i + 1, 0)
  {
    hide Components, CosineOf, Dot, DisjointSets.Class, DisjointSets.Pow2, DisjointSets.Node;
    edges := before;
    var ei := candidates[i].embedding;
    if ei.None? { return; }
    var j := i + 1;
    while j < |candidates|
      invariant i < j <= |candidates|
      invariant dsu.Valid()
      invariant Components(dsu.rep, edges)
      invariant ScanEdges(sqrt, candidates, threshold, edges, i, j)
    {
      var ej := candidates[j].embedding;
      if ej.Some? {
        var similarity := Cosine.Cosine(sqrt, ei.value, ej.value);
        if similarity >= threshold {
          ghost var rep := dsu.rep;
          dsu.Union(i, j);
          UnionAddsEdge(rep, dsu.rep, edges, i, j);
          edges := edges + {(i, j)};
        }
      }
      j := j + 1;
    }
  }

  lemma RootMembers(rep: seq<int>, clusters: seq<Cluster>, order: seq<int>, x: int, i: int)
    requires FromRoots(rep, clusters, order) && 0 <= x < |clusters|
    ensures InCluster(clusters, x, i) <==> 0 <= i < |rep| && rep[i] == order[x]
    ensures Ascending(clusters[x].members)
  {
    MembersOfMeaning(rep, order[x], |rep|);
  }

  lemma RootsPartition(rep: seq<int>, clusters: seq<Cluster>, order: seq<int>)
    requires FromRoots(rep, clusters, order)
    requires forall x :: 0 <= x < |clusters| ==> clusters[x].members != []
    ensures Partition(clusters, |rep|)
  {
    forall x, i | 0 <= x < |clusters|
      ensures InCluster(clusters, x, i) ==> 0 <= i < |rep| && rep[i] == order[x]
      ensures Ascending(clusters[x].members)
    {
      RootMembers(rep, clusters, order, x, i);
    }
    forall i | 0 <= i < |rep| ensures Covered(clusters, i) {
      var root := rep[i];
      assert root in order;
      var x :| 0 <= x < |order| && order[x] == root;
      RootMembers(rep, clusters, order, x, i);
    }
  }

  lemma SharedClusterIsConnected(sqrt: real -> real, candidates: seq<CandidateMemory>, threshold: real,
                                 rep: seq<int>, edges: Edges, clusters: seq<Cluster>, order: seq<int>,
                                 x: int, i: int, j: int)
    requires IsSqrt(sqrt) && OneWidth(candidates) && |rep| == |candidates|
    requires Components(rep, edges) && ScanEdges(sqrt, candidates, threshold, edges, |candidates|, 0)
    requires FromRoots(rep, clusters, order)
    requires InCluster(clusters, x, i) && 0 <= j < |candidates|
    ensures InCluster(clusters, x, j) <==> Connected(sqrt, candidates, threshold, i, j)
  {
    RootMembers(rep, clusters, order, x, i);
    RootMembers(rep, clusters, order, x, j);
    ComponentsAreLinks(rep, edges, i, j);
    LinkedIsConnected(sqrt, candidates, threshold, edges, i, j);
  }

  lemma ChainStart(sqrt: real -> real, candidates: seq<CandidateMemory>, threshold: real, path: seq<int>, i: int,
                   j: int)
    requires IsSqrt(sqrt) && OneWidth(candidates)
    requires SimilarChain(sqrt, candidates, threshold, path, i, j) && |path| > 1
    ensures 0 <= i < |candidates| && candidates[i].embedding.Some?
  {
    assert Similar(sqrt, candidates, threshold, path[0], path[0 + 1]);
  }

  /** Two candidates whose cosine reaches the threshold share a cluster. */
  lemma CloseOnesShare(sqrt: real -> real, candidates: seq<CandidateMemory>, threshold: real,
                       clusters: seq<Cluster>, i: nat, j: nat)
    returns (x: nat)
    requires IsSqrt(sqrt) && OneWidth(candidates) && Partition(clusters, |candidates|)
    requires forall x, i, j :: InCluster(clusters, x, i) && 0 <= j < |candidates| ==>
               (InCluster(clusters, x, j) <==> Connected(sqrt, candidates, threshold, i, j))
    requires i < |candidates| && j < |candidates|
    requires candidates[i].embedding.Some? && candidates[j].embedding.Some?
    requires CosineOf(sqrt, candidates[i].embedding.value, candidates[j].embedding.value) >= threshold
    ensures InCluster(clusters, x, i) && InCluster(clusters, x, j)
  {
    hide IsSqrt, OneWidth, CosineOf;
    assert Covered(clusters, i);
    x :| InCluster(clusters, x, i);
    assert Similar(sqrt, candidates, threshold, i, j);
    assert SimilarChain(sqrt, candidates, threshold, [i, j], i, j);
  }

  /** A candidate that reaches the threshold with no other is alone. */
  lemma DistantOnesPart(sqrt: real -> real, candidates: seq<CandidateMemory>, threshold: real,
                        clusters: seq<Cluster>, x: int, i: nat, j: nat)
    requires IsSqrt(sqrt) && OneWidth(candidates) && Partition(clusters, |candidates|)
    requires forall x, i, j :: InCluster(clusters, x, i) && 0 <= j < |candidates| ==>
               (InCluster(clusters, x, j) <==> Connected(sqrt, candidates, threshold, i, j))
    requires i < |candidates| && candidates[i].embedding.Some?
    requires forall m :: 0 <= m < |candidates| && m != i && candidates[m].embedding.Some? ==>
               CosineOf(sqrt, candidates[i].embedding.value, candidates[m].embedding.value) < threshold
    requires InCluster(clusters, x, i) && InCluster(clusters, x, j)
    ensures i == j
  {
    hide IsSqrt, OneWidth, CosineOf;
    var path :| SimilarChain(sqrt, candidates, threshold, path, i, j);
    StaysAt(sqrt, candidates, threshold, path, i, j, |path| - 1);
  }

  lemma {:induction false} StaysAt(sqrt: real -> real, candidates: seq<CandidateMemory>, threshold: real,
                                   path: seq<int>, i: nat, j: int, k: nat)
    requires IsSqrt(sqrt) && OneWidth(candidates) && i < |candidates| && candidates[i].embedding.Some?
    requires forall m :: 0 <= m < |candidates| && m != i && candidates[m].embedding.Some? ==>
               CosineOf(sqrt, candidates[i].embedding.value, candidates[m].embedding.value) < threshold
    requires SimilarChain(sqrt, candidates, threshold, path, i, j) && k < |path|
    ensures path[k] == i
  {
    hide IsSqrt, OneWidth, CosineOf;
    if k == 0 {
    } else {
      StaysAt(sqrt, candidates, threshold, path, i, j, k - 1);
      assert Similar(sqrt, candidates, threshold, path[k - 1], path[k - 1 + 1]);
    }
  }

  lemma AscendingDistinct(s: seq<nat>)
    requires Ascending(s) && |s| > 1
    ensures s[0] != s[1]
  {
  }

  /** Nothing chains to a candidate that has no embedding. */
  lemma IsolatedCluster(sqrt: real -> real, candidates: seq<CandidateMemory>, threshold: real,
                        clusters: seq<Cluster>, x: int, i: int)
    requires IsSqrt(sqrt) && OneWidth(candidates)
    requires Partition(clusters, |candidates|) && InCluster(clusters, x, i) && candidates[i].embedding.None?
    requires forall j :: InCluster(clusters, x, j) ==> Connected(sqrt, candidates, threshold, i, j)
    requires clusters[x].centroid == CentroidOf(sqrt, candidates, clusters[x].members)
    ensures clusters[x] == Cluster([i], None)
  {
    var members := clusters[x].members;
    forall k | 0 <= k < |members| ensures members[k] == i {
      var j := members[k];
      assert j in members && InCluster(clusters, x, j);
      var p :| SimilarChain(sqrt, candidates, threshold, p, i, j);
      if |p| > 1 { ChainStart(sqrt, candidates, threshold, p, i, j); }
    }
    if |members| > 1 { AscendingDistinct(members); }
  }

  /** Root r's members among the first n indices, of which there are some. */
  ghost predicate IsGroup(rep: seq<int>, rootToMembers: map<int, seq<nat>>, r: int, n: nat)
    requires n <= |rep|
  {
    r in rootToMembers && rootToMembers[r] == MembersOf(rep, r, n) && rootToMembers[r] != []
  }

  /** Group a's smallest member comes before group b's. */
  ghost predicate StartsBefore(rootToMembers: map<int, seq<nat>>, a: int, b: int) {
    && a in rootToMembers && b in rootToMembers && rootToMembers[a] != [] && rootToMembers[b] != []
    && rootToMembers[a][0] < rootToMembers[b][0]
  }

  ghost predicate Grouped(rep: seq<int>, rootToMembers: map<int, seq<nat>>, order: seq<int>, n: nat)
    requires n <= |rep|
  {
    && (forall r :: r in rootToMembers <==> r in order)
    && (forall r :: r in rootToMembers ==> IsGroup(rep, rootToMembers, r, n))
    && (forall k :: 0 <= k < n ==> rep[k] in order)
    && (forall x, y :: 0 <= x < y < |order| ==> StartsBefore(rootToMembers, order[x], order[y]))
  }

  /** Files index n under its root. */
  method AddToGroup(ghost rep: seq<int>, rootToMembers: map<int, seq<nat>>, order: seq<int>, n: nat, root: int)
    returns (grown: map<int, seq<nat>>, order': seq<int>)
    requires n < |rep| && root == rep[n] && Grouped(rep, rootToMembers, order, n)
    ensures Grouped(rep, grown, order', n + 1)
  {
    if root !in rootToMembers {
      grown := rootToMembers[root := [n]];
      order' := order + [root];
      OpensGroup(rep, rootToMembers, order, n);
    } else {
      grown := rootToMembers[root := rootToMembers[root] + [n]];
      order' := order;
      GrowsGroup(rep, rootToMembers, order, n);
    }
  }

  lemma OpensGroup(rep: seq<int>, rootToMembers: map<int, seq<nat>>, order: seq<int>, n: nat)
    requires n < |rep| && Grouped(rep, rootToMembers, order, n) && rep[n] !in rootToMembers
    ensures Grouped(rep, rootToMembers[rep[n] := [n]], order + [rep[n]], n + 1)
  {
    var grown, order' := rootToMembers[rep[n] := [n]], order + [rep[n]];
    NoMembersYet(rep, rep[n], n);
    assert forall r :: r in order' <==> r in order || r == rep[n];
    forall r | r in grown ensures IsGroup(rep, grown, r, n + 1) {
      if r != rep[n] { assert IsGroup(rep, rootToMembers, r, n); }
    }
    forall x, y | 0 <= x < y < |order'| ensures StartsBefore(grown, order'[x], order'[y]) {
      GroupHead(rep, rootToMembers, order, n, x);
      assert order'[x] == order[x] && order[x] in order;
      if y < |order| {
        assert StartsBefore(rootToMembers, order[x], order[y]);
        assert order'[y] == order[y] && order[y] in order;
      }
    }
    forall k | 0 <= k < n + 1 ensures rep[k] in order' {
      if k < n { assert rep[k] in order; }
    }
  }

  lemma GrowsGroup(rep: seq<int>, rootToMembers: map<int, seq<nat>>, order: seq<int>, n: nat)
    requires n < |rep| && Grouped(rep, rootToMembers, order, n) && rep[n] in rootToMembers
    ensures Grouped(rep, rootToMembers[rep[n] := rootToMembers[rep[n]] + [n]], order, n + 1)
  {
    hide IsGroup, StartsBefore;
    var grown := rootToMembers[rep[n] := rootToMembers[rep[n]] + [n]];
    assert IsGroup(rep, rootToMembers, rep[n], n);
    forall r | r in grown ensures IsGroup(rep, grown, r, n + 1) {
      assert IsGroup(rep, rootToMembers, r, n);
      MemberFiled(rep, rootToMembers, r, n);
    }
    forall x, y | 0 <= x < y < |order| ensures StartsBefore(grown, order[x], order[y]) {
      assert StartsBefore(rootToMembers, order[x], order[y]);
      StillStartsBefore(rep, rootToMembers, order[x], order[y], n);
    }
    forall k | 0 <= k < n + 1 ensures rep[k] in order {
    }
  }

  lemma MemberFiled(rep: seq<int>, rootToMembers: map<int, seq<nat>>, r: int, n: nat)
    requires n < |rep| && rep[n] in rootToMembers && IsGroup(rep, rootToMembers, r, n)
    ensures IsGroup(rep, rootToMembers[rep[n] := rootToMembers[rep[n]] + [n]], r, n + 1)
  {
  }

  lemma StillStartsBefore(rep: seq<int>, rootToMembers: map<int, seq<nat>>, a: int, b: int, n: nat)
    requires n < |rep| && rep[n] in rootToMembers && StartsBefore(rootToMembers, a, b)
    ensures StartsBefore(rootToMembers[rep[n] := rootToMembers[rep[n]] + [n]], a, b)
  {
  }

  lemma GroupHead(rep: seq<int>, rootToMembers: map<int, seq<nat>>, order: seq<int>, n: nat, x: nat)
    requires n <= |rep| && Grouped(rep, rootToMembers, order, n) && x < |order|
    ensures order[x] in rootToMembers && rootToMembers[order[x]] != [] && rootToMembers[order[x]][0] < n
  {
    var r := order[x];
    assert r in order;
    assert IsGroup(rep, rootToMembers, r, n);
    MembersOfMeaning(rep, r, n);
    assert MembersOf(rep, r, n)[0] in MembersOf(rep, r, n);
  }

  lemma {:induction false} NoMembersYet(rep: seq<int>, r: int, n: nat)
    requires n <= |rep| && forall k :: 0 <= k < n ==> rep[k] != r
    ensures MembersOf(rep, r, n) == []
  {
    if n == 0 {
    } else {
      NoMembersYet(rep, r, n - 1);
    }
  }

  /** The root walk: the members of every root, roots in order of first appearance. */
  method GroupByRoot(dsu: DisjointSets.UnionFind) returns (rootToMembers: map<int, seq<nat>>, order: seq<int>)
    requires dsu.Valid()
    modifies dsu.parent
    ensures dsu.rep == old(dsu.rep) && |dsu.rep| == dsu.n
    ensures Grouped(dsu.rep, rootToMembers, order, dsu.n)
  {
    rootToMembers := map[];
    order := [];
    var i := 0;
    while i < dsu.n
      invariant 0 <= i <= dsu.n
      invariant dsu.Valid() && dsu.rep == old(dsu.rep)
      invariant Grouped(dsu.rep, rootToMembers, order, i)
    {
      var root, _ := dsu.Find(i);
      rootToMembers, order := AddToGroup(dsu.rep, rootToMembers, order, i, root);
      i := i + 1;
    }
  }

  /** One cluster per root, with its centroid. */
  method EmitClusters(sqrt: real -> real, candidates: seq<CandidateMemory>, ghost rep: seq<int>,
                      rootToMembers: map<int, seq<nat>>, order: seq<int>)
    returns (clusters: seq<Cluster>)
    requires IsSqrt(sqrt) && OneWidth(candidates)
    requires |rep| == |candidates| && Grouped(rep, rootToMembers, order, |rep|)
    ensures FromRoots(rep, clusters, order)
    ensures forall x :: 0 <= x < |clusters| ==> clusters[x].members == rootToMembers[order[x]]
    ensures forall x :: 0 <= x < |clusters| ==>
              clusters[x].members != [] && clusters[x].centroid == CentroidOf(sqrt, candidates, clusters[x].members)
    ensures forall x :: 0 <= x < |clusters| ==> IsCentroid(candidates, clusters[x].members, clusters[x].centroid)
  {
    hide CentroidOf, MembersOf, IsCentroid;
    clusters := [];
    var x := 0;
    while x < |order|
      invariant 0 <= x <= |order| && |clusters| == x
      invariant forall y :: 0 <= y < x ==> order[y] in rootToMembers && clusters[y].members == rootToMembers[order[y]]
      invariant forall y :: 0 <= y < x ==>
                  clusters[y].members != [] && clusters[y].centroid == CentroidOf(sqrt, candidates, clusters[y].members)
      invariant forall y :: 0 <= y < x ==> IsCentroid(candidates, clusters[y].members, clusters[y].centroid)
    {
      GroupHead(rep, rootToMembers, order, |rep|, x);
      var members := rootToMembers[order[x]];
      MembersOfMeaning(rep, order[x], |rep|);
      forall y | 0 <= y < |members| ensures members[y] < |candidates| {
        assert members[y] in members;
      }
      var centroid := ComputeCentroid(sqrt, candidates, members);
      clusters := clusters + [Cluster(members, centroid)];
      x := x + 1;
    }
  }
}
