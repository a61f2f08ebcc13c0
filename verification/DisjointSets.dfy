/** Union-find with path compression and union by rank over the indices [0, n). */
module DisjointSets {

  function Pow2(k: nat): (p: nat)
    ensures p > k
  {
    if k == 0 then 1 else 2 * Pow2(k - 1)
  }

  lemma {:induction false} Pow2Monotone(a: nat, b: nat)
    requires a <= b
    ensures Pow2(a) <= Pow2(b)
  {
    if a < b { Pow2Monotone(a, b - 1); }
  }

  /** The indices whose representative is r. */
  ghost function Class(rep: seq<int>, r: int): set<int> {
    set i | 0 <= i < |rep| && rep[i] == r
  }

  /** What holds at index i: rep names its root, and ranks grow along its link. */
  ghost predicate Node(parent: seq<int>, rank: seq<int>, rep: seq<int>, i: int)
    requires |parent| == |rank| == |rep| && 0 <= i < |rep|
  {
    && 0 <= parent[i] < |rep|
    && 0 <= rep[i] < |rep|
    && rank[i] >= 0
    && rep[parent[i]] == rep[i]
    && rep[rep[i]] == rep[i]
    && (parent[i] == i <==> rep[i] == i)
    && (parent[i] != i ==> rank[i] < rank[parent[i]])
    && (rep[i] != i ==> rank[i] < rank[rep[i]])
  }

  ghost predicate Forest(parent: seq<int>, rank: seq<int>, rep: seq<int>) {
    && |parent| == |rank| == |rep|
    && (forall i :: 0 <= i < |rep| ==> 0 <= rep[i] < |rep|)
    && (forall i :: 0 <= i < |rep| ==> Node(parent, rank, rep, i))
  }

  /** A root of rank r has a class of at least 2^r members. */
  ghost predicate Balanced(rank: seq<int>, rep: seq<int>) {
    && |rank| == |rep|
    && forall r :: 0 <= r < |rep| && rep[r] == r && rank[r] >= 0 ==> |Class(rep, r)| >= Pow2(rank[r])
  }

  /** The nodes on the way from x to its root, both ends included. */
  ghost function Path(parent: seq<int>, rank: seq<int>, rep: seq<int>, x: int): set<int>
    requires Forest(parent, rank, rep) && 0 <= x < |rep|
    decreases rank[rep[x]] - rank[x]
  {
    assert Node(parent, rank, rep, x) && Node(parent, rank, rep, parent[x]);
    if parent[x] == x then {x} else {x} + Path(parent, rank, rep, parent[x])
  }

  /** The number of links from x to its root. */
  ghost function Depth(parent: seq<int>, rank: seq<int>, rep: seq<int>, x: int): (d: nat)
    requires Forest(parent, rank, rep) && 0 <= x < |rep|
    ensures d <= rank[rep[x]] - rank[x]
    decreases rank[rep[x]] - rank[x]
  {
    assert Node(parent, rank, rep, x) && Node(parent, rank, rep, parent[x]);
    if parent[x] == x then 0 else 1 + Depth(parent, rank, rep, parent[x])
  }

  lemma {:induction false} PathIsOneClass(parent: seq<int>, rank: seq<int>, rep: seq<int>, x: int)
    requires Forest(parent, rank, rep) && 0 <= x < |rep|
    ensures forall i :: i in Path(parent, rank, rep, x) ==> 0 <= i < |rep| && rep[i] == rep[x] && rank[i] >= rank[x]
    ensures x in Path(parent, rank, rep, x)
    decreases rank[rep[x]] - rank[x]
  {
    assert Node(parent, rank, rep, x) && Node(parent, rank, rep, parent[x]);
    if parent[x] != x { PathIsOneClass(parent, rank, rep, parent[x]); }
  }

  /** Any walk to the root crosses at most log2(n) links. */
  lemma LogarithmicDepth(parent: seq<int>, rank: seq<int>, rep: seq<int>, x: int)
    requires Forest(parent, rank, rep) && Balanced(rank, rep) && 0 <= x < |rep|
    ensures Pow2(Depth(parent, rank, rep, x)) <= |rep|
  {
    assert Node(parent, rank, rep, x);
    var r := rep[x];
    assert Node(parent, rank, rep, r);
    Pow2Monotone(Depth(parent, rank, rep, x), rank[r]);
    ClassSize(rep, r);
  }

  lemma {:induction false} ClassSize(rep: seq<int>, r: int)
    ensures |Class(rep, r)| <= |rep|
  {
    if rep == [] {
      assert Class(rep, r) == {};
    } else {
      var n := |rep| - 1;
      ClassSize(rep[..n], r);
      assert Class(rep, r) == Class(rep[..n], r) + if rep[n] == r then {n} else {};
    }
  }

  /** The parent array after find(x): every node on the path points at the root. */
  ghost predicate Compressed(before: seq<int>, after: seq<int>, path: set<int>, root: int) {
    && |after| == |before|
    && forall i :: 0 <= i < |before| ==> after[i] == if i in path then root else before[i]
  }

  /** Path compression keeps the forest, whatever part of one class it redirects to the root. */
  lemma CompressionKeepsForest(before: seq<int>, after: seq<int>, rank: seq<int>, rep: seq<int>, path: set<int>,
                               root: int)
    requires Forest(before, rank, rep) && 0 <= root < |rep| && rep[root] == root
    requires forall i :: i in path ==> 0 <= i < |rep| && rep[i] == root
    requires Compressed(before, after, path, root)
    ensures Forest(after, rank, rep)
  {
    forall i | 0 <= i < |rep| ensures Node(after, rank, rep, i) {
      assert Node(before, rank, rep, i) && Node(before, rank, rep, root);
    }
  }

  /** The representatives after the class of loser joins the class of winner. */
  ghost function Joined(rep: seq<int>, loser: int, winner: int): seq<int> {
    seq(|rep|, i requires 0 <= i < |rep| => if rep[i] == loser then winner else rep[i])
  }

  /** Linking one root below another, with the rank rule of union, keeps forest and balance. */
  lemma LinkKeepsForest(parent: seq<int>, rank: seq<int>, rep: seq<int>, loser: int, winner: int, rank': seq<int>)
    requires Forest(parent, rank, rep) && Balanced(rank, rep)
    requires 0 <= loser < |rep| && 0 <= winner < |rep| && loser != winner
    requires rep[loser] == loser && rep[winner] == winner
    requires || (rank[loser] < rank[winner] && rank' == rank)
             || (rank[loser] == rank[winner] && rank' == rank[winner := rank[winner] + 1])
    ensures Forest(parent[loser := winner], rank', Joined(rep, loser, winner))
    ensures Balanced(rank', Joined(rep, loser, winner))
  {
    var rep' := Joined(rep, loser, winner);
    var parent' := parent[loser := winner];
    assert Node(parent, rank, rep, loser) && Node(parent, rank, rep, winner);
    forall i | 0 <= i < |rep| ensures Node(parent', rank', rep', i) {
      assert Node(parent, rank, rep, i) && Node(parent, rank, rep, parent[i]);
    }
    LinkKeepsBalance(rank, rep, loser, winner, rank');
  }

  lemma LinkKeepsBalance(rank: seq<int>, rep: seq<int>, loser: int, winner: int, rank': seq<int>)
    requires |rank| == |rep| && Balanced(rank, rep)
    requires 0 <= loser < |rep| && 0 <= winner < |rep| && loser != winner
    requires rep[loser] == loser && rep[winner] == winner && rank[loser] >= 0 && rank[winner] >= 0
    requires || (rank[loser] < rank[winner] && rank' == rank)
             || (rank[loser] == rank[winner] && rank' == rank[winner := rank[winner] + 1])
    ensures |rank'| == |Joined(rep, loser, winner)| && Balanced(rank', Joined(rep, loser, winner))
  {
    var rep' := Joined(rep, loser, winner);
    forall r | 0 <= r < |rep'| && rep'[r] == r && rank'[r] >= 0
      ensures Pow2(rank'[r]) <= |Class(rep', r)|
    {
      if r == winner {
        assert Class(rep', r) == Class(rep, winner) + Class(rep, loser);
        assert Class(rep, winner) !! Class(rep, loser);
        assert Pow2(rank[winner]) <= |Class(rep, winner)| && Pow2(rank[loser]) <= |Class(rep, loser)|;
      } else {
        assert Class(rep', r) == Class(rep, r);
      }
    }
  }

  class UnionFind {
    const n: nat
    const parent: array<int>
    const rank: array<int>
    ghost var rep: seq<int>

    ghost predicate Valid()
      reads this, parent, rank
    {
      && parent != rank
      && parent.Length == rank.Length == |rep| == n
      && Forest(parent[..], rank[..], rep)
      && Balanced(rank[..], rep)
    }

    constructor (n: nat)
      ensures Valid() && fresh(parent) && fresh(rank)
      ensures this.n == n
      ensures rep == seq(n, i => i)
    {
      this.n := n;
      parent := new int[n](i => i);
      rank := new int[n](_ => 0);
      rep := seq(n, i => i);
      new;
      forall i | 0 <= i < n ensures Node(parent[..], rank[..], rep, i) && Class(rep, i) == {i} {
      }
    }

    method Find(x: int) returns (root: int, ghost links: nat)
      requires Valid() && 0 <= x < n
      modifies parent
      ensures Valid()
      ensures 0 <= root < n && root == rep[x] && rep[root] == root && rank[root] >= 0
      ensures Compressed(old(parent[..]), parent[..], old(Path(parent[..], rank[..], rep, x)), root)
      ensures links == old(Depth(parent[..], rank[..], rep, x)) && Pow2(links) <= n
    {
      hide Class, Pow2;
      ghost var before := parent[..];
      ghost var ranks := rank[..];
      ghost var path := Path(before, ranks, rep, x);
      PathIsOneClass(before, ranks, rep, x);
      LogarithmicDepth(before, ranks, rep, x);
      assert Node(before, ranks, rep, x);
      root := x;
      links := 0;
      while parent[root] != root
        invariant 0 <= root < n && rep[root] == rep[x]
        invariant links + Depth(before, ranks, rep, root) == Depth(before, ranks, rep, x)
        decreases ranks[rep[x]] - ranks[root]
      {
        assert Node(before, ranks, rep, root) && Node(before, ranks, rep, before[root]);
        root := parent[root];
        links := links + 1;
      }
      assert Node(before, ranks, rep, root);
      var node := x;
      ghost var done: set<int> := {};
      while parent[node] != root
        invariant 0 <= node < n && rep[node] == root
        invariant path == done + Path(before, ranks, rep, node)
        invariant forall i :: i in done ==> 0 <= i < n && ranks[i] < ranks[node]
        invariant forall i :: 0 <= i < n ==> parent[i] == if i in done then root else before[i]
        decreases ranks[root] - ranks[node]
      {
        assert Node(before, ranks, rep, node) && Node(before, ranks, rep, before[node]);
        PathIsOneClass(before, ranks, rep, before[node]);
        var next := parent[node];
        parent[node] := root;
        done := done + {node};
        node := next;
      }
      assert Node(before, ranks, rep, node);
      assert Path(before, ranks, rep, node) == {node, root};
      CompressionKeepsForest(before, parent[..], ranks, rep, path, root);
    }

    method Union(a: int, b: int)
      requires Valid() && 0 <= a < n && 0 <= b < n
      modifies this, parent, rank
      ensures Valid()
      ensures forall i, j :: 0 <= i < n && 0 <= j < n ==>
                (rep[i] == rep[j] <==>
                  || old(rep)[i] == old(rep)[j]
                  || (old(rep)[i] == old(rep)[a] && old(rep)[j] == old(rep)[b])
                  || (old(rep)[i] == old(rep)[b] && old(rep)[j] == old(rep)[a]))
    {
      hide Class, Pow2, Path, Depth, Compressed;
      var ra, _ := Find(a);
      var rb, _ := Find(b);
      if ra == rb { return; }
      var rankA := rank[ra];
      var rankB := rank[rb];
      ghost var p, k := parent[..], rank[..];
      if rankA < rankB {
        parent[ra] := rb;
        LinkKeepsForest(p, k, rep, ra, rb, k);
        rep := Joined(rep, ra, rb);
      } else if rankA > rankB {
        parent[rb] := ra;
        LinkKeepsForest(p, k, rep, rb, ra, k);
        rep := Joined(rep, rb, ra);
      } else {
        parent[rb] := ra;
        rank[ra] := rankA + 1;
        LinkKeepsForest(p, k, rep, rb, ra, k[ra := rankA + 1]);
        rep := Joined(rep, rb, ra);
      }
    }
  }
}
