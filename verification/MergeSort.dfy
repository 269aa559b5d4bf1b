/** Bottom-up merge sort on sequences: what list_sort computes, and why the result is sorted and stable. */
module MergeSort {
  import opened Sequences

  /** Two runs merged; on a tie the element of the left run goes first. */
  function MergeRuns<T>(a: seq<T>, b: seq<T>, cmp: (T, T) -> int): seq<T>
    decreases |a| + |b|
  {
    if a == [] then b
    else if b == [] then a
    else if cmp(a[0], b[0]) <= 0 then [a[0]] + MergeRuns(a[1..], b, cmp)
    else [b[0]] + MergeRuns(a, b[1..], cmp)
  }

  /** One pass: neighbouring runs of length w are merged pairwise. */
  function Pass<T>(s: seq<T>, w: nat, cmp: (T, T) -> int): seq<T>
    requires w > 0
    decreases |s|
  {
    if s == [] then [] else
    var pe, qe := Min(w, |s|), Min(2 * w, |s|);
    MergeRuns(s[..pe], s[pe..qe], cmp) + Pass(s[qe..], w, cmp)
  }

  lemma {:induction false} MergeKeepsElements<T>(a: seq<T>, b: seq<T>, cmp: (T, T) -> int)
    ensures multiset(MergeRuns(a, b, cmp)) == multiset(a) + multiset(b)
    ensures |MergeRuns(a, b, cmp)| == |a| + |b|
    decreases |a| + |b|
  {
    if a != [] && b != [] {
      if cmp(a[0], b[0]) <= 0 {
        MergeKeepsElements(a[1..], b, cmp);
        FirstElement(a);
        ConsElements(a[0], MergeRuns(a[1..], b, cmp));
      } else {
        MergeKeepsElements(a, b[1..], cmp);
        FirstElement(b);
        ConsElements(b[0], MergeRuns(a, b[1..], cmp));
      }
    }
  }

  lemma FirstElement<T>(s: seq<T>)
    requires s != []
    ensures multiset(s) == multiset{s[0]} + multiset(s[1..])
  {
    assert s == [s[0]] + s[1..];
  }

  lemma ConsElements<T>(x: T, s: seq<T>)
    ensures multiset([x] + s) == multiset{x} + multiset(s) && |[x] + s| == |s| + 1
  {
  }

  lemma {:induction false} PassKeepsElements<T>(s: seq<T>, w: nat, cmp: (T, T) -> int)
    requires w > 0
    ensures multiset(Pass(s, w, cmp)) == multiset(s) && |Pass(s, w, cmp)| == |s|
    decreases |s|
  {
    if s != [] {
      var pe, qe := Min(w, |s|), Min(2 * w, |s|);
      var a, b, c := s[..pe], s[pe..qe], s[qe..];
      PassKeepsElements(c, w, cmp);
      MergedInFront(s, a, b, c, Pass(c, w, cmp), cmp);
    }
  }

  lemma MergedInFront<T>(s: seq<T>, a: seq<T>, b: seq<T>, c: seq<T>, c': seq<T>, cmp: (T, T) -> int)
    requires |a| + |b| <= |s| && s[..|a|] == a && s[|a|..|a| + |b|] == b && s[|a| + |b|..] == c
    requires multiset(c') == multiset(c) && |c'| == |c|
    ensures multiset(MergeRuns(a, b, cmp) + c') == multiset(s) && |MergeRuns(a, b, cmp) + c'| == |s|
  {
    MergeKeepsElements(a, b, cmp);
    Elements(s, a, b, c, MergeRuns(a, b, cmp), c');
  }

  lemma Elements<T>(s: seq<T>, a: seq<T>, b: seq<T>, c: seq<T>, ab: seq<T>, c': seq<T>)
    requires |a| + |b| <= |s| && s[..|a|] == a && s[|a|..|a| + |b|] == b && s[|a| + |b|..] == c
    requires multiset(ab) == multiset(a) + multiset(b) && multiset(c') == multiset(c)
    ensures multiset(ab + c') == multiset(s)
  {
    assert s == (a + b) + c;
  }

  /** Passes with run lengths w, 2w, 4w, ... until a pass needs a single merge. */
  function SortFrom<T>(s: seq<T>, w: nat, cmp: (T, T) -> int): seq<T>
    requires w > 0
    decreases |s| - w
  {
    PassKeepsElements(s, w, cmp);
    if |s| <= 2 * w then Pass(s, w, cmp) else SortFrom(Pass(s, w, cmp), 2 * w, cmp)
  }

  // ----- sortedness and stability together

  /** cmp is a total preorder on the elements of s. */
  ghost predicate TotalPreorder<T>(cmp: (T, T) -> int, s: seq<T>) {
    && (forall x, y :: x in s && y in s ==> cmp(x, y) <= 0 || cmp(y, x) <= 0)
    && (forall x, y, z :: x in s && y in s && z in s && cmp(x, y) <= 0 && cmp(y, z) <= 0 ==> cmp(x, z) <= 0)
  }

  /** x may stand before y: it is not larger, and if they are equal it came first. */
  ghost predicate Before<T>(x: T, y: T, cmp: (T, T) -> int, rank: T -> int) {
    cmp(x, y) <= 0 && (cmp(y, x) <= 0 ==> rank(x) < rank(y))
  }

  ghost predicate Ordered<T>(s: seq<T>, cmp: (T, T) -> int, rank: T -> int) {
    forall i, j :: 0 <= i < j < |s| ==> Before(s[i], s[j], cmp, rank)
  }

  ghost predicate AllBefore<T>(x: T, s: seq<T>, cmp: (T, T) -> int, rank: T -> int) {
    forall y :: y in s ==> Before(x, y, cmp, rank)
  }

  lemma OrderedCons<T>(x: T, s: seq<T>, cmp: (T, T) -> int, rank: T -> int)
    requires AllBefore(x, s, cmp, rank) && Ordered(s, cmp, rank)
    ensures Ordered([x] + s, cmp, rank)
  {
  }

  lemma OrderedTail<T>(s: seq<T>, cmp: (T, T) -> int, rank: T -> int)
    requires s != [] && Ordered(s, cmp, rank)
    ensures AllBefore(s[0], s[1..], cmp, rank) && Ordered(s[1..], cmp, rank)
  {
  }

  lemma BeforeTransitive<T>(x: T, y: T, z: T, all: seq<T>, cmp: (T, T) -> int, rank: T -> int)
    requires TotalPreorder(cmp, all) && x in all && y in all && z in all
    requires Before(x, y, cmp, rank) && Before(y, z, cmp, rank)
    ensures Before(x, z, cmp, rank)
  {
  }

  lemma {:induction false} MergeOrdered<T>(a: seq<T>, b: seq<T>, all: seq<T>, cmp: (T, T) -> int, rank: T -> int)
    requires TotalPreorder(cmp, all)
    requires forall x :: x in a ==> x in all
    requires forall x :: x in b ==> x in all
    requires Ordered(a, cmp, rank) && Ordered(b, cmp, rank)
    requires forall x, y :: x in a && y in b ==> rank(x) < rank(y)
    ensures Ordered(MergeRuns(a, b, cmp), cmp, rank)
    decreases |a| + |b|
  {
    if a != [] && b != [] {
      OrderedTail(a, cmp, rank);
      OrderedTail(b, cmp, rank);
      if cmp(a[0], b[0]) <= 0 {
        var m := MergeRuns(a[1..], b, cmp);
        MergeOrdered(a[1..], b, all, cmp, rank);
        MergeKeepsElements(a[1..], b, cmp);
        forall y | y in m
          ensures Before(a[0], y, cmp, rank)
        {
          assert y in multiset(m);
          if y in b && y != b[0] { BeforeTransitive(a[0], b[0], y, all, cmp, rank); }
        }
        OrderedCons(a[0], m, cmp, rank);
      } else {
        var m := MergeRuns(a, b[1..], cmp);
        MergeOrdered(a, b[1..], all, cmp, rank);
        MergeKeepsElements(a, b[1..], cmp);
        forall y | y in m
          ensures Before(b[0], y, cmp, rank)
        {
          assert y in multiset(m);
          if y in a && y != a[0] { BeforeTransitive(b[0], a[0], y, all, cmp, rank); }
        }
        OrderedCons(b[0], m, cmp, rank);
      }
    }
  }

  /** s is o with each block of length w rearranged into order. */
  ghost predicate RunsOrdered<T>(s: seq<T>, o: seq<T>, w: nat, cmp: (T, T) -> int, rank: T -> int)
    requires w > 0
    decreases |s|
  {
    && |s| == |o|
    && (s != [] ==>
          var e := Min(w, |s|);
          && multiset(s[..e]) == multiset(o[..e])
          && Ordered(s[..e], cmp, rank)
          && RunsOrdered(s[e..], o[e..], w, cmp, rank))
  }

  ghost predicate Increasing<T>(o: seq<T>, rank: T -> int) {
    forall i, j :: 0 <= i < j < |o| ==> rank(o[i]) < rank(o[j])
  }

  /** Runs of length one are in order. */
  lemma {:induction false} SingletonRuns<T>(s: seq<T>, cmp: (T, T) -> int, rank: T -> int)
    ensures RunsOrdered(s, s, 1, cmp, rank)
    decreases |s|
  {
    if s != [] {
      SingletonRuns(s[1..], cmp, rank);
    }
  }

  /** A pass turns ordered runs of length w into ordered runs of length 2w. */
  lemma {:induction false} PassOrdersRuns<T>(s: seq<T>, o: seq<T>, w: nat, cmp: (T, T) -> int, rank: T -> int)
    requires w > 0 && TotalPreorder(cmp, o) && Increasing(o, rank) && RunsOrdered(s, o, w, cmp, rank)
    ensures RunsOrdered(Pass(s, w, cmp), o, 2 * w, cmp, rank)
    decreases |s|
  {
    if s != [] {
      var pe, qe := Min(w, |s|), Min(2 * w, |s|);
      var m, rest := MergeRuns(s[..pe], s[pe..qe], cmp), Pass(s[qe..], w, cmp);
      FirstTwoRuns(s, o, w, pe, qe, s[..pe], o[..pe], s[pe..qe], o[pe..qe], s[qe..], o[qe..], cmp, rank);
      MergedRunOrdered(s[..pe], s[pe..qe], o, pe, qe, cmp, rank);
      SubPreorder(cmp, o, qe);
      PassOrdersRuns(s[qe..], o[qe..], w, cmp, rank);
      PassKeepsElements(s[qe..], w, cmp);
      JoinRuns(m, rest, m + rest, o, 2 * w, o[qe..], cmp, rank);
    }
  }

  /** An ordered run in front of ordered runs. */
  lemma JoinRuns<T>(m: seq<T>, rest: seq<T>, s: seq<T>, o: seq<T>, w: nat, o': seq<T>, cmp: (T, T) -> int,
        rank: T -> int)
    requires w > 0 && s == m + rest && |s| == |o| && |m| == Min(w, |s|) && o' == o[|m|..]
    requires multiset(m) == multiset(o[..|m|]) && Ordered(m, cmp, rank) && RunsOrdered(rest, o', w, cmp, rank)
    ensures RunsOrdered(s, o, w, cmp, rank)
  {
    assert s[..|m|] == m && s[|m|..] == rest;
  }

  lemma SubPreorder<T>(cmp: (T, T) -> int, o: seq<T>, k: nat)
    requires k <= |o| && TotalPreorder(cmp, o)
    ensures TotalPreorder(cmp, o[k..])
  {
    assert forall x :: x in o[k..] ==> x in o;
  }

  /** r is o, as long as it is, rearranged into order. */
  ghost predicate RunOf<T>(r: seq<T>, o: seq<T>, cmp: (T, T) -> int, rank: T -> int) {
    multiset(r) == multiset(o) && Ordered(r, cmp, rank)
  }

  /** The first two runs a and b of s, and the rest s2; likewise oa, ob and o2 of o. */
  lemma FirstTwoRuns<T>(s: seq<T>, o: seq<T>, w: nat, pe: nat, qe: nat, a: seq<T>, oa: seq<T>, b: seq<T>, ob: seq<T>,
                        s2: seq<T>, o2: seq<T>, cmp: (T, T) -> int, rank: T -> int)
    requires w > 0 && RunsOrdered(s, o, w, cmp, rank) && |s| == |o| && pe == Min(w, |s|) && qe == Min(2 * w, |s|)
    requires a == s[..pe] && oa == o[..pe] && b == s[pe..qe] && ob == o[pe..qe] && s2 == s[qe..] && o2 == o[qe..]
    ensures RunOf(a, oa, cmp, rank) && RunOf(b, ob, cmp, rank) && RunsOrdered(s2, o2, w, cmp, rank)
  {
    var s1, o1 := s[pe..], o[pe..];
    FirstRun(s, o, w, pe, a, oa, s1, o1, cmp, rank);
    Cut(s, pe, qe);
    Cut(o, pe, qe);
    FirstRun(s1, o1, w, qe - pe, b, ob, s2, o2, cmp, rank);
  }

  lemma FirstRun<T>(s: seq<T>, o: seq<T>, w: nat, e: nat, a: seq<T>, oa: seq<T>, s': seq<T>, o': seq<T>,
                    cmp: (T, T) -> int, rank: T -> int)
    requires w > 0 && RunsOrdered(s, o, w, cmp, rank) && |s| == |o| && e == Min(w, |s|)
    requires a == s[..e] && oa == o[..e] && s' == s[e..] && o' == o[e..]
    ensures RunOf(a, oa, cmp, rank) && RunsOrdered(s', o', w, cmp, rank)
  {
  }

  lemma Cut<T>(s: seq<T>, a: nat, b: nat)
    requires a <= b <= |s|
    ensures s[a..][..b - a] == s[a..b] && s[a..][b - a..] == s[b..]
  {
  }

  lemma MergedRunOrdered<T>(a: seq<T>, b: seq<T>, o: seq<T>, pe: nat, qe: nat, cmp: (T, T) -> int, rank: T -> int)
    requires pe <= qe <= |o| && TotalPreorder(cmp, o) && Increasing(o, rank)
    requires multiset(a) == multiset(o[..pe]) && multiset(b) == multiset(o[pe..qe])
    requires Ordered(a, cmp, rank) && Ordered(b, cmp, rank)
    ensures Ordered(MergeRuns(a, b, cmp), cmp, rank)
    ensures multiset(MergeRuns(a, b, cmp)) == multiset(o[..qe]) && |MergeRuns(a, b, cmp)| == |a| + |b|
  {
    forall x | x in a ensures x in o[..pe] { assert x in multiset(a); }
    forall x | x in b ensures x in o[pe..qe] { assert x in multiset(b); }
    MergeOrdered(a, b, o, cmp, rank);
    MergeKeepsElements(a, b, cmp);
    assert o[..qe] == o[..pe] + o[pe..qe];
  }

  lemma {:induction false} SortFromOrders<T>(s: seq<T>, o: seq<T>, w: nat, cmp: (T, T) -> int, rank: T -> int)
    requires w > 0 && TotalPreorder(cmp, o) && Increasing(o, rank) && RunsOrdered(s, o, w, cmp, rank)
    ensures Ordered(SortFrom(s, w, cmp), cmp, rank)
    ensures multiset(SortFrom(s, w, cmp)) == multiset(s)
    decreases |s| - w
  {
    PassOrdersRuns(s, o, w, cmp, rank);
    PassKeepsElements(s, w, cmp);
    var p := Pass(s, w, cmp);
    if |s| <= 2 * w {
      assert p[..|p|] == p;
    } else {
      SortFromOrders(p, o, 2 * w, cmp, rank);
    }
  }

  /** r is s sorted: the same elements, none larger than a later one, equal ones in the order of s. */
  ghost predicate StablySorted<T>(r: seq<T>, s: seq<T>, cmp: (T, T) -> int) {
    && multiset(r) == multiset(s)
    && forall i, j :: 0 <= i < j < |r| ==>
         && cmp(r[i], r[j]) <= 0
         && (cmp(r[j], r[i]) <= 0 ==> exists a, b :: 0 <= a < b < |s| && s[a] == r[i] && s[b] == r[j])
  }

  ghost function IndexIn<T>(x: T, s: seq<T>): int {
    if x in s then var i :| 0 <= i < |s| && s[i] == x; i else -1
  }

  /** The sort of distinct elements is the stable one, for every total preorder. */
  lemma SortIsStable<T>(s: seq<T>, cmp: (T, T) -> int)
    requires NoDup(s) && TotalPreorder(cmp, s)
    ensures StablySorted(SortFrom(s, 1, cmp), s, cmp)
  {
    var rank := x => IndexIn(x, s);
    assert Increasing(s, rank) by {
      forall i | 0 <= i < |s| ensures rank(s[i]) == i { assert s[i] in s; }
    }
    SingletonRuns(s, cmp, rank);
    SortFromOrders(s, s, 1, cmp, rank);
    var r := SortFrom(s, 1, cmp);
    forall i, j | 0 <= i < j < |r|
      ensures cmp(r[i], r[j]) <= 0
      ensures cmp(r[j], r[i]) <= 0 ==> exists a, b :: 0 <= a < b < |s| && s[a] == r[i] && s[b] == r[j]
    {
      assert Before(r[i], r[j], cmp, rank);
      assert r[i] in multiset(r) && r[j] in multiset(r);
      assert r[i] in s && r[j] in s;
      if cmp(r[j], r[i]) <= 0 {
        var a, b := IndexIn(r[i], s), IndexIn(r[j], s);
        assert 0 <= a < b < |s| && s[a] == r[i] && s[b] == r[j];
      }
    }
  }
}
