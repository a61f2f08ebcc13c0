/** What the modules below need of JavaScript's stable Array.prototype.sort and of string comparison. */
module Ordering {

  ghost predicate TotalPreorder<T(!new)>(le: (T, T) -> bool) {
    && (forall x, y :: le(x, y) || le(y, x))
    && (forall x, y, z :: le(x, y) && le(y, z) ==> le(x, z))
  }

  ghost predicate Ordered<T>(s: seq<T>, le: (T, T) -> bool) {
    forall i, j :: 0 <= i < j < |s| ==> le(s[i], s[j])
  }

  ghost predicate NoDuplicates<T>(s: seq<T>) {
    forall i, j :: 0 <= i < j < |s| ==> s[i] != s[j]
  }

  /** Puts x in front of the first element it may precede, so equal elements keep their order. */
  function Insert<T>(x: T, s: seq<T>, le: (T, T) -> bool): (r: seq<T>)
    ensures multiset(r) == multiset{x} + multiset(s)
  {
    if s == [] then [x]
    else if le(x, s[0]) then [x] + s
    else
      assert s == [s[0]] + s[1..];
      [s[0]] + Insert(x, s[1..], le)
  }

  function Sort<T>(s: seq<T>, le: (T, T) -> bool): (r: seq<T>)
    ensures multiset(r) == multiset(s)
    ensures |r| == |s|
  {
    if s == [] then []
    else
      assert s == [s[0]] + s[1..];
      var r := Insert(s[0], Sort(s[1..], le), le);
      assert |multiset(r)| == |multiset(s)|;
      r
  }

  lemma {:induction false} InsertOrdered<T(!new)>(x: T, s: seq<T>, le: (T, T) -> bool)
    requires TotalPreorder(le) && Ordered(s, le)
    ensures Ordered(Insert(x, s, le), le)
  {
    if s != [] && !le(x, s[0]) {
      var rest := Insert(x, s[1..], le);
      InsertOrdered(x, s[1..], le);
      forall j | 0 <= j < |rest| ensures le(s[0], rest[j]) {
        assert rest[j] in multiset(rest);
        assert rest[j] == x || rest[j] in s[1..];
      }
    }
  }

  lemma {:induction false} SortOrdered<T(!new)>(s: seq<T>, le: (T, T) -> bool)
    requires TotalPreorder(le)
    ensures Ordered(Sort(s, le), le)
  {
    if s == [] {
    } else {
      SortOrdered(s[1..], le);
      InsertOrdered(s[0], Sort(s[1..], le), le);
    }
  }

  /** Sorting leaves a sorted list as it is. */
  lemma {:induction false} SortOfOrdered<T(!new)>(s: seq<T>, le: (T, T) -> bool)
    requires Ordered(s, le)
    ensures Sort(s, le) == s
  {
    if s == [] {
    } else {
      SortOfOrdered(s[1..], le);
      assert s == [s[0]] + s[1..];
    }
  }

  lemma SameElements<T>(s: seq<T>, t: seq<T>)
    requires multiset(s) == multiset(t)
    ensures forall x :: x in s <==> x in t
    ensures |s| == |t|
  {
    assert forall x :: x in s <==> x in multiset(s);
    assert forall x :: x in t <==> x in multiset(t);
    assert |multiset(s)| == |multiset(t)|;
  }

  lemma NoDuplicatesPermutation<T>(s: seq<T>, t: seq<T>)
    requires multiset(s) == multiset(t) && NoDuplicates(s)
    ensures NoDuplicates(t)
  {
    if i, j :| 0 <= i < j < |t| && t[i] == t[j] {
      var x := t[i];
      assert t == t[..j] + [t[j]] + t[j + 1..];
      assert t[..j][i] == x;
      assert multiset(t[..j])[x] >= 1 && multiset(t)[x] >= 2;
      NoDuplicatesCount(s, x);
    }
  }

  lemma SubsetCount<T>(part: set<T>, whole: set<T>)
    requires part <= whole
    ensures |part| <= |whole| && (|part| == |whole| <==> part == whole)
  {
    assert |whole - part| == |whole| - |part|;
    if |part| == |whole| { assert whole - part == {}; }
  }

  lemma {:induction false} NoDuplicatesCount<T>(s: seq<T>, x: T)
    requires NoDuplicates(s)
    ensures multiset(s)[x] == if x in s then 1 else 0
  {
    if s == [] {
    } else {
      NoDuplicatesCount(s[1..], x);
      assert s == [s[0]] + s[1..];
    }
  }

  lemma SameSetSameElements<T(!new)>(s: seq<T>, t: seq<T>)
    requires NoDuplicates(s) && NoDuplicates(t)
    requires forall x :: x in s <==> x in t
    ensures multiset(s) == multiset(t)
  {
    forall x ensures multiset(s)[x] == multiset(t)[x] {
      NoDuplicatesCount(s, x);
      NoDuplicatesCount(t, x);
    }
  }

  lemma HeadIsLeast<T>(s: seq<T>, x: T, le: (T, T) -> bool)
    requires Ordered(s, le) && x in s && x != s[0]
    ensures le(s[0], x)
  {
    var i :| 0 <= i < |s| && s[i] == x;
    assert 0 < i;
  }

  lemma TailElements<T>(s: seq<T>, t: seq<T>)
    requires multiset(s) == multiset(t) && s != [] && t != [] && s[0] == t[0]
    ensures multiset(s[1..]) == multiset(t[1..])
  {
    assert s == [s[0]] + s[1..] && t == [t[0]] + t[1..];
    assert multiset(s[1..]) == multiset(s) - multiset{s[0]};
    assert multiset(t[1..]) == multiset(t) - multiset{s[0]};
  }

  ghost predicate NoTies<T(!new)>(s: seq<T>, le: (T, T) -> bool) {
    forall x, y :: x in s && y in s && le(x, y) && le(y, x) ==> x == y
  }

  /** A sorted arrangement is determined by its elements when ties are impossible. */
  lemma {:induction false} OrderedUnique<T(!new)>(s: seq<T>, t: seq<T>, le: (T, T) -> bool)
    requires multiset(s) == multiset(t)
    requires Ordered(s, le) && Ordered(t, le) && NoTies(s, le)
    ensures s == t
  {
    SameElements(s, t);
    if s == [] {
    } else {
      HeadsAgree(s, t, le);
      TailElements(s, t);
      assert forall x :: x in s[1..] ==> x in s;
      OrderedUnique(s[1..], t[1..], le);
      assert s == [s[0]] + s[1..] && t == [t[0]] + t[1..];
    }
  }

  lemma HeadsAgree<T(!new)>(s: seq<T>, t: seq<T>, le: (T, T) -> bool)
    requires s != [] && t != [] && s[0] in t && t[0] in s
    requires Ordered(s, le) && Ordered(t, le) && NoTies(s, le)
    ensures s[0] == t[0]
  {
    if s[0] != t[0] {
      HeadIsLeast(s, t[0], le);
      HeadIsLeast(t, s[0], le);
    }
  }

  /** How many elements a cut at k keeps. */
  function Kept(k: int, n: nat): (r: nat)
    ensures r <= n
  {
    if k <= 0 then 0 else if k < n then k else n
  }

  /** all is split into a selection and the rest, and nothing in the rest beats the selection. */
  ghost predicate Separates<T>(top: seq<T>, rest: seq<T>, all: seq<T>, le: (T, T) -> bool) {
    && multiset(top + rest) == multiset(all)
    && forall i, j :: 0 <= i < |top| && 0 <= j < |rest| ==> le(top[i], rest[j])
  }

  /** top is a best-k selection of all: sorted, and no element left out beats one that was kept. */
  ghost predicate IsTop<T(!new)>(top: seq<T>, all: seq<T>, k: int, le: (T, T) -> bool) {
    && |top| == Kept(k, |all|)
    && Ordered(top, le)
    && exists rest: seq<T> :: Separates(top, rest, all, le)
  }

  lemma CutIsTop<T(!new)>(s: seq<T>, all: seq<T>, k: int, le: (T, T) -> bool)
    requires multiset(s) == multiset(all) && |s| == |all| && Ordered(s, le)
    ensures IsTop(s[..Kept(k, |all|)], all, k, le)
  {
    var n := Kept(k, |all|);
    var top, rest := s[..n], s[n..];
    assert top + rest == s;
    forall i, j | 0 <= i < |top| && 0 <= j < |rest| ensures le(top[i], rest[j]) {
      assert le(s[i], s[n + j]);
    }
    assert Separates(top, rest, all, le);
  }

  lemma SortCutIsTop<T(!new)>(all: seq<T>, k: int, le: (T, T) -> bool)
    requires TotalPreorder(le)
    ensures IsTop(Sort(all, le)[..Kept(k, |all|)], all, k, le)
  {
    SortOrdered(all, le);
    CutIsTop(Sort(all, le), all, k, le);
  }

  /** Without ties there is one best-k selection: the sorted list cut at k. */
  lemma TopUnique<T(!new)>(top: seq<T>, all: seq<T>, k: int, le: (T, T) -> bool)
    requires TotalPreorder(le)
    requires IsTop(top, all, k, le)
    requires NoTies(all, le)
    ensures top == Sort(all, le)[..Kept(k, |all|)]
  {
    var rest: seq<T> :| Separates(top, rest, all, le);
    var tail := Sort(rest, le);
    SortOrdered(rest, le);
    SortOrdered(all, le);
    var whole := top + tail;
    JoinOrdered(top, rest, tail, all, le);
    SameElements(whole, all);
    OrderedUnique(whole, Sort(all, le), le);
    assert top == whole[..|top|];
  }

  lemma SplitUnique<T(!new)>(top: seq<T>, rest: seq<T>, all: seq<T>, k: int, le: (T, T) -> bool)
    requires TotalPreorder(le) && NoTies(all, le)
    requires |top| == Kept(k, |all|) && Ordered(top, le) && Separates(top, rest, all, le)
    ensures top == Sort(all, le)[..Kept(k, |all|)]
  {
    TopUnique(top, all, k, le);
  }

  lemma JoinOrdered<T>(top: seq<T>, rest: seq<T>, tail: seq<T>, all: seq<T>, le: (T, T) -> bool)
    requires Separates(top, rest, all, le) && Ordered(top, le)
    requires Ordered(tail, le) && multiset(tail) == multiset(rest)
    ensures Ordered(top + tail, le) && multiset(top + tail) == multiset(all)
  {
    SameElements(rest, tail);
    var whole := top + tail;
    forall i, j | 0 <= i < j < |whole| ensures le(whole[i], whole[j]) {
      if i < |top| <= j {
        assert tail[j - |top|] in rest;
      }
    }
  }

  /** Lexicographic comparison, JavaScript's `<=` on strings. */
  predicate TextLe(a: string, b: string) {
    a == [] || (b != [] && (a[0] < b[0] || (a[0] == b[0] && TextLe(a[1..], b[1..]))))
  }

  lemma {:induction false} TextLeTotal(a: string, b: string)
    ensures TextLe(a, b) || TextLe(b, a)
    ensures TextLe(a, b) && TextLe(b, a) ==> a == b
  {
    if a != [] && b != [] {
      TextLeTotal(a[1..], b[1..]);
      assert a == [a[0]] + a[1..] && b == [b[0]] + b[1..];
    }
  }

  /** Texts are ordered by their first difference, a prefix before what it begins. */
  lemma {:induction false} TextLeMeaning(a: string, b: string)
    ensures TextLe(a, b) <==> a <= b || exists k :: DiffersAt(a, b, k) && a[k] < b[k]
  {
    if a == [] || b == [] {
    } else if a[0] != b[0] {
      assert DiffersAt(a, b, 0);
      forall k ensures DiffersAt(a, b, k) ==> k == 0 {
        FirstCharacters(a, b, k);
      }
      FirstCharacters(a, b, 0);
    } else {
      TextLeMeaning(a[1..], b[1..]);
      assert a <= b <==> a[1..] <= b[1..] by {
        assert a == [a[0]] + a[1..] && b == [b[0]] + b[1..];
      }
      forall k | DiffersAt(a[1..], b[1..], k) ensures DiffersAt(a, b, k + 1) {
        assert a[..k + 1] == [a[0]] + a[1..][..k] && b[..k + 1] == [b[0]] + b[1..][..k];
      }
      forall k | DiffersAt(a, b, k) ensures k > 0 && DiffersAt(a[1..], b[1..], k - 1) {
        assert a[1..][..k - 1] == a[..k][1..] && b[1..][..k - 1] == b[..k][1..];
      }
    }
  }

  lemma FirstCharacters(a: string, b: string, k: int)
    requires a != [] && b != []
    ensures k >= 1 && DiffersAt(a, b, k) ==> a[0] == b[0]
    ensures a <= b ==> a[0] == b[0]
  {
    assert 1 <= k <= |a| ==> a[..k][0] == a[0];
    assert 1 <= k <= |b| ==> b[..k][0] == b[0];
  }

  /** The texts agree up to position k and differ there. */
  ghost predicate DiffersAt(a: string, b: string, k: int) {
    0 <= k < |a| && k < |b| && a[..k] == b[..k] && a[k] != b[k]
  }

  lemma {:induction false} TextLeTransitive(a: string, b: string, c: string)
    requires TextLe(a, b) && TextLe(b, c)
    ensures TextLe(a, c)
  {
    if a != [] && b != [] && c != [] && a[0] == b[0] && b[0] == c[0] {
      TextLeTransitive(a[1..], b[1..], c[1..]);
    }
  }
}
