/** Domain names as strings, and the map from them to values. */
module Domains {
  import opened Wrappers
  import opened Sequences
  import opened Trie
  import opened TrieSearch

  const DOT: char := '.'

  /** strchr: where the first dot is, or the length. */
  function FirstDot(s: string): (i: nat)
    ensures i <= |s|
    ensures i < |s| ==> s[i] == DOT
    ensures DOT !in s[..i]
  {
    if s == [] || s[0] == DOT then 0 else
    var i := 1 + FirstDot(s[1..]);
    assert s[..i] == [s[0]] + s[1..][..i - 1];
    i
  }

  function Split(s: string): (ls: seq<Label>)
    ensures ls != []
    decreases |s|
  {
    var i := FirstDot(s);
    if i == |s| then [s] else [s[..i]] + Split(s[i + 1..])
  }

  function Join(ls: seq<Label>): string
    requires ls != []
  {
    if |ls| == 1 then ls[0] else ls[0] + [DOT] + Join(ls[1..])
  }

  predicate Dotless(ls: seq<Label>) {
    forall l :: l in ls ==> DOT !in l
  }

  lemma {:induction false} JoinOfSplit(s: string)
    ensures Join(Split(s)) == s && Dotless(Split(s))
    decreases |s|
  {
    var i := FirstDot(s);
    if i < |s| {
      JoinOfSplit(s[i + 1..]);
      assert Split(s)[1..] == Split(s[i + 1..]);
      assert s == s[..i] + [DOT] + s[i + 1..];
    } else {
      assert s[..i] == s;
    }
  }

  lemma {:induction false} FirstDotIs(a: string, rest: string)
    requires DOT !in a && (rest == "" || rest[0] == DOT)
    ensures FirstDot(a + rest) == |a|
  {
    if a == "" {
      assert a + rest == rest;
    } else {
      FirstDotIs(a[1..], rest);
      assert (a + rest)[1..] == a[1..] + rest && a[0] in a;
    }
  }

  lemma SplitCons(l: Label, s: string)
    requires DOT !in l
    ensures Split(l + [DOT] + s) == [l] + Split(s)
  {
    var t := l + [DOT] + s;
    assert t == l + ([DOT] + s);
    FirstDotIs(l, [DOT] + s);
    assert t[..|l|] == l && t[|l| + 1..] == s;
  }

  lemma SplitOne(l: Label)
    requires DOT !in l
    ensures Split(l) == [l]
  {
    assert l + "" == l;
    FirstDotIs(l, "");
  }

  lemma {:induction false} SplitOfJoin(ls: seq<Label>)
    requires ls != [] && Dotless(ls)
    ensures Split(Join(ls)) == ls
    decreases |ls|
  {
    assert ls[0] in ls;
    if |ls| == 1 {
      SplitOne(ls[0]);
    } else {
      SplitOfJoin(ls[1..]);
      SplitCons(ls[0], Join(ls[1..]));
    }
  }

  // ----- the map from names to values

  /** The labels in the order in which they are popped. */
  function PathOf(domain: string): (path: Path)
    ensures path != []
  {
    Reverse(Split(domain))
  }

  /** Different names have different paths. */
  lemma PathOfInjective(a: string, b: string)
    requires PathOf(a) == PathOf(b)
    ensures a == b
  {
    ReverseTwice(Split(a));
    ReverseTwice(Split(b));
    JoinOfSplit(a);
    JoinOfSplit(b);
  }

  function Binding(t: Tree, domain: string): Option<Value> {
    Lookup(t, PathOf(domain))
  }

  /** trie_insert_domain is put-if-absent on a map keyed by names. */
  lemma InsertDomain(t: Tree, domain: string, v: Option<Value>, other: string)
    ensures var (t', was) := Insert(t, PathOf(domain), v);
      && was == Binding(t, domain)
      && Binding(t', other) == if other == domain && was.None? then v else Binding(t, other)
  {
    InsertIsPutIfAbsent(t, PathOf(domain), v, PathOf(other));
    if PathOf(other) == PathOf(domain) { PathOfInjective(other, domain); }
  }

  /** `*.s`, where s is the last k labels of the name; `*` if k is 0. */
  function WildcardOf(domain: string, k: nat): string
    requires k < |Split(domain)|
  {
    StarLast(Split(domain), k)
  }

  function StarLast(ls: seq<Label>, k: nat): string
    requires k <= |ls|
  {
    Join([STAR] + ls[|ls| - k..])
  }

  lemma StarDotless(ls: seq<Label>)
    requires Dotless(ls)
    ensures Dotless([STAR] + ls)
  {
    assert STAR == ['*'];
  }

  lemma WildcardPath(domain: string, k: nat)
    requires k < |Split(domain)|
    ensures PathOf(WildcardOf(domain, k)) == Starred(PathOf(domain), k)
  {
    SplitDotless(domain);
    StarPath(Split(domain), k, StarLast(Split(domain), k), PathOf(domain));
  }

  lemma SplitDotless(s: string)
    ensures Dotless(Split(s))
  {
    JoinOfSplit(s);
  }

  lemma StarPath(ls: seq<Label>, k: nat, w: string, path: Path)
    requires k <= |ls| && Dotless(ls) && w == StarLast(ls, k) && path == Reverse(ls)
    ensures PathOf(w) == Starred(path, k)
  {
    var tail := ls[|ls| - k..];
    StarDotless(tail);
    SplitOfJoin([STAR] + tail);
    StarReversed(tail);
    ReverseDrop(ls, k);
  }

  lemma StarReversed(tail: seq<Label>)
    ensures Reverse([STAR] + tail) == Reverse(tail) + [STAR]
  {
    assert ([STAR] + tail)[1..] == tail;
  }

  /** trie_get_domain: a name that is bound yields its value; otherwise what is found is the value of a
      wildcard for some proper suffix of the name. */
  lemma GetDomain(t: Tree, domain: string)
    requires Sound(t)
    ensures var r := Get(t, PathOf(domain), None);
      && (Binding(t, domain).Some? ==> r == Binding(t, domain))
      && (Binding(t, domain).None? && r.Some? ==>
          exists k: nat :: k < |Split(domain)| && r == Binding(t, WildcardOf(domain, k)))
  {
    GetFinds(t, PathOf(domain));
    if Binding(t, domain).None? && Get(t, PathOf(domain), None).Some? {
      var k: nat :| Offers(t, PathOf(domain), k)
          && Get(t, PathOf(domain), None) == Lookup(t, Starred(PathOf(domain), k));
      WildcardPath(domain, k);
    }
  }

  /** A name taken apart, and the wildcards above it, letter by letter. */
  lemma ExampleNames(name: string)
    requires name == "www.a.b"
    ensures Split(name) == ["www", "a", "b"] && PathOf(name) == ["b", "a", "www"]
    ensures WildcardOf(name, 2) == "*.a.b" && WildcardOf(name, 0) == "*"
  {
    var ls: seq<Label> := ["www", "a", "b"];
    ExampleJoin(ls, name);
    SplitOfJoin(ls);
    ExampleReverse(ls);
    ExampleStars(ls);
  }

  lemma ExampleJoin(ls: seq<Label>, name: string)
    requires ls == ["www", "a", "b"] && name == "www.a.b"
    ensures Join(ls) == name && Dotless(ls)
  {
    assert ls[1..] == ["a", "b"] && ls[1..][1..] == ["b"];
    assert Join(ls[1..]) == "a.b";
  }

  lemma ExampleReverse(ls: seq<Label>)
    requires ls == ["www", "a", "b"]
    ensures Reverse(ls) == ["b", "a", "www"]
  {
    assert ls[1..] == ["a", "b"] && ls[1..][1..] == ["b"] && ls[1..][1..][1..] == [];
    assert Reverse(ls[1..]) == ["b", "a"];
  }

  lemma ExampleStars(ls: seq<Label>)
    requires ls == ["www", "a", "b"]
    ensures StarLast(ls, 2) == "*.a.b" && StarLast(ls, 0) == "*"
  {
    var w := [STAR] + ls[1..];
    assert w[1..] == ["a", "b"] && w[1..][1..] == ["b"] && Join(w[1..]) == "a.b";
    assert [STAR] + ls[3..] == ["*"];
  }
}
