/** Searching the tree of labels: exact names, and wildcards above them. */
module TrieSearch {
  import opened Wrappers
  import opened Trie

  const STAR: Label := "*"

  function Or(a: Option<Value>, b: Option<Value>): Option<Value> {
    if a.Some? then a else b
  }

  /** _trie_get: `wild` is the value of the last wildcard passed. */
  function Get(t: Tree, path: Path, wild: Option<Value>): Option<Value>
    requires path != []
    decreases |path|, 1, 0
  {
    Scan(t.child, path, wild)
  }

  /** The loop over the children. */
  function Scan(cs: seq<Tree>, path: Path, wild: Option<Value>): Option<Value>
    requires path != []
    decreases |path|, 0, |cs|
  {
    if cs == [] then wild
    else if cs[0].key == path[0] then
      if |path| == 1 then Or(cs[0].value, wild)
      else
        var ret := Get(cs[0], path[1..], wild);
        if ret.None? && wild.None? then Scan(cs[1..], path, wild) else Or(ret, wild)
    else Scan(cs[1..], path, if cs[0].key == STAR then cs[0].value else wild)
  }

  /** What a search does at one node when siblings have different keys.  The wildcard is seen on the
      way to the child that matches; one behind it is seen only if that child yields nothing, there are
      labels left, and no wildcard was passed. */
  function Level(cs: seq<Tree>, path: Path, wild: Option<Value>): Option<Value>
    requires path != []
  {
    var i, s := Find(cs, path[0]), Find(cs, STAR);
    var passed := if s < i then cs[s].value else wild;
    if i == |cs| then passed
    else if |path| == 1 then Or(cs[i].value, passed)
    else
      var ret := Get(cs[i], path[1..], passed);
      if ret.None? && passed.None? then (if i < s < |cs| then cs[s].value else None) else Or(ret, passed)
  }

  lemma FindStep(cs: seq<Tree>, key: Label)
    requires cs != [] && Distinct(cs)
    ensures Distinct(cs[1..])
    ensures cs[0].key == key ==> Find(cs, key) == 0 && Find(cs[1..], key) == |cs| - 1
    ensures cs[0].key != key ==> Find(cs, key) == 1 + Find(cs[1..], key)
  {
    if cs[0].key == key { FindIs(cs[1..], key, |cs| - 1); }
  }

  lemma {:induction false} ScanIsLevel(cs: seq<Tree>, path: Path, wild: Option<Value>)
    requires path != [] && Distinct(cs)
    ensures Scan(cs, path, wild) == Level(cs, path, wild)
    decreases |cs|
  {
    if cs != [] {
      FindStep(cs, path[0]);
      FindStep(cs, STAR);
      if cs[0].key == path[0] {
        ScanIsLevel(cs[1..], path, wild);
      } else {
        ScanIsLevel(cs[1..], path, if cs[0].key == STAR then cs[0].value else wild);
      }
    }
  }

  lemma GetIsLevel(t: Tree, path: Path, wild: Option<Value>)
    requires path != [] && Sound(t)
    ensures Get(t, path, wild) == Level(t.child, path, wild)
  {
    ScanIsLevel(t.child, path, wild);
  }

  /** An exact binding wins, whatever wildcards there are and in whatever order. */
  lemma {:induction false} ExactWins(t: Tree, path: Path, wild: Option<Value>)
    requires path != [] && Sound(t) && Lookup(t, path).Some?
    ensures Get(t, path, wild) == Lookup(t, path)
    decreases |path|
  {
    GetIsLevel(t, path, wild);
    var i, s := Find(t.child, path[0]), Find(t.child, STAR);
    if |path| > 1 {
      ExactWins(t.child[i], path[1..], if s < i then t.child[s].value else wild);
    } else {
      assert NodeAt(t, path) == NodeAt(t.child[i], []);
    }
  }

  /** The name with all but its last k labels replaced by a star. */
  function Starred(path: Path, k: nat): Path
    requires k <= |path|
  {
    path[..k] + [STAR]
  }

  /** The name itself is a node, and one that its parent lists before the star. */
  ghost predicate Hides(t: Tree, path: Path)
    requires path != []
  {
    var n := NodeAt(t, path[..|path| - 1]);
    n.Some? && Find(n.value.child, path[|path| - 1]) < Find(n.value.child, STAR)
  }

  /** A wildcard that can answer a search for a name that is not bound. */
  ghost predicate Offers(t: Tree, path: Path, k: nat) {
    && k < |path| && path[k] != STAR && Lookup(t, Starred(path, k)).Some?
    && !(k == |path| - 1 && Hides(t, path))
  }

  lemma OffersHere(t: Tree, path: Path)
    requires path != []
    ensures var i, s := Find(t.child, path[0]), Find(t.child, STAR);
      Offers(t, path, 0) <==> path[0] != STAR && s < |t.child| && t.child[s].value.Some? && !(|path| == 1 && i < s)
    ensures var s := Find(t.child, STAR);
      Lookup(t, Starred(path, 0)) == if s < |t.child| then t.child[s].value else None
  {
    assert Starred(path, 0) == [STAR];
    if Find(t.child, STAR) < |t.child| {
      assert NodeAt(t, [STAR]) == NodeAt(t.child[Find(t.child, STAR)], []);
    }
    if |path| == 1 { assert path[..0] == []; }
  }

  lemma OffersBelow(t: Tree, path: Path, k: nat)
    requires 0 < k < |path|
    ensures Child(t.child, path[0]).None? ==> !Offers(t, path, k)
    ensures Child(t.child, path[0]).Some? ==>
      (Offers(t, path, k) <==> Offers(Child(t.child, path[0]).value, path[1..], k - 1))
    ensures Child(t.child, path[0]).Some? ==>
      Lookup(t, Starred(path, k)) == Lookup(Child(t.child, path[0]).value, Starred(path[1..], k - 1))
  {
    assert Starred(path, k)[1..] == Starred(path[1..], k - 1);
    assert path[..|path| - 1][1..] == path[1..][..|path| - 2];
  }

  /** Whatever else a search finds is bound to a wildcard of a proper suffix of the name. */
  lemma {:induction false} FoundIsOffered(t: Tree, path: Path, wild: Option<Value>) returns (k: nat)
    requires path != [] && Sound(t) && Lookup(t, path).None? && Get(t, path, wild).Some? && Get(t, path, wild) != wild
    ensures Offers(t, path, k) && Get(t, path, wild) == Lookup(t, Starred(path, k))
    decreases |path|
  {
    GetIsLevel(t, path, wild);
    OffersHere(t, path);
    var i, s := Find(t.child, path[0]), Find(t.child, STAR);
    var passed := if s < i then t.child[s].value else wild;
    k := 0;
    if i < |t.child| {
      if |path| == 1 {
        assert NodeAt(t, path) == NodeAt(t.child[i], []);
      } else {
        var ret := Get(t.child[i], path[1..], passed);
        if ret.Some? && ret != passed {
          k := FoundIsOffered(t.child[i], path[1..], passed);
          OffersBelow(t, path, k + 1);
          k := k + 1;
        }
      }
    }
  }

  /** A search that finds nothing was offered nothing. */
  lemma {:induction false} NotFoundNotOffered(t: Tree, path: Path, wild: Option<Value>, k: nat)
    requires path != [] && Sound(t) && Get(t, path, wild).None?
    ensures !Offers(t, path, k)
    decreases |path|
  {
    GetIsLevel(t, path, wild);
    OffersHere(t, path);
    var i, s := Find(t.child, path[0]), Find(t.child, STAR);
    if 0 < k < |path| {
      OffersBelow(t, path, k);
      if i < |t.child| {
        NotFoundNotOffered(t.child[i], path[1..], if s < i then t.child[s].value else wild, k - 1);
      }
    }
  }

  /** When trie_get_domain finds something: the name is bound, or some wildcard above it is, except one
      that the parent of an unbound node lists behind that node. */
  lemma GetFinds(t: Tree, path: Path)
    requires path != [] && Sound(t)
    ensures Get(t, path, None).Some? <==> Lookup(t, path).Some? || exists k: nat :: Offers(t, path, k)
    ensures Get(t, path, None).Some? && Lookup(t, path).Some? ==> Get(t, path, None) == Lookup(t, path)
    ensures Get(t, path, None).Some? && Lookup(t, path).None? ==>
      exists k: nat :: Offers(t, path, k) && Get(t, path, None) == Lookup(t, Starred(path, k))
  {
    if Lookup(t, path).Some? {
      ExactWins(t, path, None);
    } else if Get(t, path, None).Some? {
      var k := FoundIsOffered(t, path, None);
    } else {
      forall k: nat ensures !Offers(t, path, k) { NotFoundNotOffered(t, path, None, k); }
    }
  }

  /** A concrete case: `*.com` is bound, `www.com` is a node that is not, only on the way to `a.www.com`,
      and com lists it before the star.  The search for `www.com` misses the wildcard. */
  lemma HiddenWildcard()
    ensures var www := Tree("www", None, [Tree("a", Some(1), [])]);
      var com := Tree("com", None, [www, Tree(STAR, Some(2), [])]);
      var t := Tree("", None, [com]);
      && t == Insert(Insert(Tree("", None, []), ["com", "www", "a"], Some(1)).0, ["com", STAR], Some(2)).0
      && Sound(t)
      && Lookup(t, ["com", STAR]) == Some(2) && Lookup(t, ["com", "www", "a"]) == Some(1)
      && Get(t, ["com", "www"], None) == None
  {
    var www := Tree("www", None, [Tree("a", Some(1), [])]);
    var com := Tree("com", None, [www, Tree(STAR, Some(2), [])]);
    var t := Tree("", None, [com]);
    assert Sound(Tree("a", Some(1), [])) && Sound(www) && Sound(Tree(STAR, Some(2), [])) && Sound(com);
    FindIs(com.child, STAR, 1);
    assert ["com", STAR][1..] == [STAR];
    assert NodeAt(com, [STAR]) == Some(com.child[1]);
    assert ["com", "www", "a"][1..] == ["www", "a"] && ["www", "a"][1..] == ["a"];
    assert NodeAt(www, ["a"]) == Some(www.child[0]);
    assert ["com", "www"][1..] == ["www"];
    assert Get(com, ["www"], None) == None;
    HiddenTree();
  }

  /** Inserting a.www.com and then `*.com` makes this tree. */
  lemma HiddenTree()
    ensures var www := Tree("www", None, [Tree("a", Some(1), [])]);
      var com := Tree("com", None, [www, Tree(STAR, Some(2), [])]);
      var t := Insert(Tree("", None, []), ["com", "www", "a"], Some(1)).0;
      Insert(t, ["com", STAR], Some(2)).0 == Tree("", None, [com])
  {
    var path: Path := ["com", "www", "a"];
    assert path[1..] == ["www", "a"] && path[1..][1..] == ["a"] && ["com", STAR][1..] == [STAR];
    var www := Tree("www", None, [Tree("a", Some(1), [])]);
    assert Insert(Tree("www", None, []), ["a"], Some(1)).0 == www;
    var com := Tree("com", None, [www]);
    assert Insert(Tree("com", None, []), ["www", "a"], Some(1)).0 == com;
    var t := Tree("", None, [com]);
    assert Insert(Tree("", None, []), path, Some(1)).0 == t;
    assert Find(com.child, STAR) == 1;
    assert Insert(com, [STAR], Some(2)).0 == Tree("com", None, [www, Tree(STAR, Some(2), [])]);
  }
}
