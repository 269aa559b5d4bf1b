/** The trie in memory: nodes with arrays of children, updated in place. */
module TrieNodes {
  import opened Wrappers
  import opened Sequences
  import opened Trie
  import opened TrieSearch
  import opened Domains
  import opened TrieMap

  /** The array of labels, which every call pops. */
  class Labels {
    var elts: seq<Label>

    constructor ()
      ensures elts == []
    {
      elts := [];
    }

    method Push(l: Label)
      modifies this
      ensures elts == old(elts) + [l]
    {
      elts := elts + [l];
    }

    method Pop() returns (l: Label)
      requires elts != []
      modifies this
      ensures old(elts) == elts + [l] && Reverse(old(elts)) == [l] + Reverse(elts)
    {
      ReverseLast(elts);
      l := elts[|elts| - 1];
      elts := elts[..|elts| - 1];
    }
  }

  class Node {
    var key: Label
    var value: Option<Value>
    var child: seq<Node>
    ghost var tree: Tree        // what this node and those below it stand for
    ghost var repr: set<Node>   // this node and those below it

    ghost predicate Valid()
      reads this, repr
      decreases repr
    {
      && this in repr && tree.key == key && tree.value == value && |tree.child| == |child|
      && (forall c :: c in child ==> c in repr)
      && (forall i :: 0 <= i < |child| ==> Holds(i))
      && (forall i, j :: 0 <= i < j < |child| ==> child[i].repr !! child[j].repr)
    }

    ghost predicate Holds(i: nat)
      requires this in repr && i < |child| && |tree.child| == |child|
      reads this, repr
      decreases repr, 0
    {
      var c := child[i];
      c in repr && c.repr <= repr && this !in c.repr && c.Valid() && c.tree == tree.child[i]
    }

    constructor (key: Label)
      ensures Valid() && tree == Tree(key, None, []) && fresh(repr)
    {
      this.key, value, child := key, None, [];
      tree, repr := Tree(key, None, []), {this};
    }

    /** The loop that looks for a child by its key. */
    method FindChild(key: Label) returns (i: nat)
      requires Valid()
      ensures i == Find(tree.child, key)
    {
      i := 0;
      while i < |child| && child[i].key != key
        invariant i <= |child|
        invariant forall j :: 0 <= j < i ==> tree.child[j].key != key
      {
        assert Holds(i) && child[i].Valid();
        i := i + 1;
      }
      assert i < |child| ==> Holds(i) && child[i].Valid();
      FindIs(tree.child, key, i);
    }

    /** The children other than i are as they should be, and apart from n and the nodes below it. */
    ghost predicate OthersHold(i: nat, n: Node)
      reads this, repr, n
      requires this in repr && |tree.child| == |child|
    {
      && tree.key == key && tree.value == value
      && (forall c :: c in child ==> c in repr)
      && (forall j :: 0 <= j < |child| && j != i ==> Holds(j) && child[j].repr !! n.repr)
      && (forall j, k :: 0 <= j < k < |child| && j != i && k != i ==> child[j].repr !! child[k].repr)
    }

    method SetValue(v: Option<Value>)
      requires Valid()
      modifies this
      ensures Valid() && repr == old(repr) && tree == old(tree).(value := v)
    {
      value, tree := v, tree.(value := v);
      forall j | 0 <= j < |child|
        ensures Holds(j)
      {
        assert old(Holds(j));
      }
    }

    /** The child at i is n, or n is pushed behind the last child. */
    method PutChild(i: nat, n: Node)
      requires this in repr && |tree.child| == |child| && OthersHold(i, n)
      requires n.Valid() && this !in n.repr && (i == |child| || (i < |child| && child[i] == n))
      modifies this
      ensures Valid() && repr == old(repr) + n.repr && tree == old(tree).(child := Put(old(tree).child, i, n.tree))
    {
      if i == |child| { child := child + [n]; }
      tree := tree.(child := Put(tree.child, i, n.tree));
      repr := repr + n.repr;
      forall j | 0 <= j < |child|
        ensures Holds(j)
      {
        if j != i { assert old(Holds(j)); }
      }
    }

    /** trie_insert_arr: the labels left are inserted at the child for the last one. */
    method Insert(v: Option<Value>, arr: Labels) returns (was: Option<Value>)
      requires Valid() && arr.elts != []
      modifies repr, arr
      ensures Valid() && fresh(repr - old(repr))
      ensures (tree, was) == Trie.Insert(old(tree), Reverse(old(arr.elts)), v)
      decreases |arr.elts|, 1
    {
      var l := arr.Pop();
      var i := FindChild(l);
      var next: Node;
      if i < |child| {
        next := child[i];
        assert Holds(i);
      } else {
        next := new Node(l);
      }
      was := InsertAt(i, next, v, arr);
    }

    method InsertAt(i: nat, next: Node, v: Option<Value>, arr: Labels) returns (was: Option<Value>)
      requires this in repr && |tree.child| == |child| && OthersHold(i, next)
      requires next.Valid() && this !in next.repr && (i == |child| || (i < |child| && child[i] == next))
      modifies this, next.repr, arr
      ensures Valid() && fresh(repr - old(repr) - old(next.repr))
      ensures tree == old(tree).(child := Put(old(tree).child, i, next.tree))
      ensures old(arr.elts) == [] ==> (next.tree, was) == (Fill(old(next.tree), v), old(next.tree).value)
      ensures old(arr.elts) != [] ==> (next.tree, was) == Trie.Insert(old(next.tree), Reverse(old(arr.elts)), v)
      decreases |arr.elts|, 2
    {
      if arr.elts == [] {
        was := next.value;
        if was.None? { next.SetValue(v); }
      } else {
        was := next.Insert(v, arr);
      }
      forall j | 0 <= j < |child| && j != i
        ensures Holds(j) && child[j].repr == old(child[j].repr) && child[j].repr !! next.repr
      {
        var c := child[j];
        assert old(Holds(j) && c.Valid() && c in c.repr && c.repr !! next.repr);
      }
      PutChild(i, next);
    }

    /** _trie_remove */
    method Remove(domain: Labels) returns (ret: Option<Value>)
      requires Valid() && domain.elts != []
      modifies repr, domain
      ensures Valid() && repr == old(repr)
      ensures Removal(tree, ret, |domain.elts|) == Trie.Remove(old(tree), Reverse(old(domain.elts)))
      decreases |domain.elts|, 1
    {
      var l := domain.Pop();
      var i := FindChild(l);
      if i == |child| { return None; }
      assert Holds(i);
      ret := RemoveAt(i, child[i], domain);
    }

    method RemoveAt(i: nat, del: Node, domain: Labels) returns (ret: Option<Value>)
      requires Valid() && i < |child| && child[i] == del && Holds(i)
      modifies this, del.repr, domain
      ensures Valid() && repr == old(repr)
      ensures var r := if old(domain.elts) == [] then Removal(old(del.tree), old(del.tree).value, 0)
                       else Trie.Remove(old(del.tree), Reverse(old(domain.elts)));
        && tree == old(tree).(child := Replace(old(tree).child, i, Cleared(r)))
        && ret == r.value && |domain.elts| == r.left
      decreases |domain.elts|, 2
    {
      if domain.elts == [] {
        ret := del.value;
      } else {
        ret := del.Remove(domain);
      }
      if domain.elts == [] { del.SetValue(None); }
      forall j | 0 <= j < |child| && j != i
        ensures Holds(j) && child[j].repr == old(child[j].repr) && child[j].repr !! del.repr
      {
        var c := child[j];
        assert old(Holds(j) && c.Valid() && c in c.repr && c.repr !! del.repr);
      }
      if del.child == [] && del.value.None? {
        DropChild(i, del);
      } else {
        PutChild(i, del);
      }
    }

    /** arr_del: the array closes up behind the pointer to n. */
    method DropChild(ghost i: nat, n: Node)
      requires this in repr && |tree.child| == |child| && OthersHold(i, n)
      requires n in n.repr && i < |child| && child[i] == n
      modifies this
      ensures Valid() && repr == old(repr) && tree == old(tree).(child := Delete(old(tree).child, i))
    {
      forall j | 0 <= j < |child| && j != i
        ensures child[j] != n
      {
        assert Holds(j) && child[j].Valid();
      }
      var p := 0;
      while child[p] != n
        invariant p <= i
        decreases i - p
      {
        p := p + 1;
      }
      assert p == i;
      child := Delete(child, p);
      tree := tree.(child := Delete(tree.child, i));
      forall j | 0 <= j < |child|
        ensures Holds(j)
      {
        assert old(Holds(if j < i then j else j + 1));
      }
    }

    /** _trie_get */
    method Get(domain: Labels, wildcard: Option<Value>) returns (ret: Option<Value>)
      requires Valid() && domain.elts != [] && Sound(tree)
      modifies domain
      ensures ret == TrieSearch.Get(tree, Reverse(old(domain.elts)), wildcard)
      decreases |domain.elts|
    {
      ghost var path := Reverse(domain.elts);
      var wild := wildcard;
      var l := domain.Pop();
      ghost var rest := domain.elts;
      ghost var passed := false;
      var pos := 0;
      ret := None;
      while pos < |child|
        invariant pos <= |child| && ret == None
        invariant !passed ==> domain.elts == rest
        invariant passed ==> forall j :: pos <= j < |child| ==> tree.child[j].key != l
        invariant Scan(tree.child[pos..], path, wild) == Scan(tree.child, path, wildcard)
        decreases |child| - pos
      {
        var c := child[pos];
        assert Holds(pos) && c.Valid();
        assert tree.child[pos..][0] == c.tree && tree.child[pos..][1..] == tree.child[pos + 1..];
        if c.key == l {
          if domain.elts == [] {
            ret := c.value;
            break;
          } else {
            ret := c.Get(domain, wild);
            passed := true;
            if ret.Some? || wild.Some? { break; }
          }
        } else if c.key == STAR {
          wild := c.value;
        }
        pos := pos + 1;
      }
      if ret.None? { ret := wild; }
    }
  }

  /** domain_arr_new: the labels between the dots, in the order in which they are written. */
  method SplitDomain(domain: string) returns (arr: Labels)
    ensures fresh(arr) && arr.elts == Split(domain)
  {
    arr := new Labels();
    var p1 := 0;
    var p2 := NextDot(domain, p1);
    assert domain[0..] == domain && [] + Split(domain) == Split(domain);
    while p2 < |domain|
      invariant p1 <= p2 <= |domain| && p2 == p1 + FirstDot(domain[p1..])
      invariant fresh(arr) && arr.elts + Split(domain[p1..]) == Split(domain)
      decreases |domain| - p1
    {
      CutOne(arr.elts, domain, p1, p2);
      arr.Push(domain[p1..p2]);
      p1 := p2 + 1;
      p2 := NextDot(domain, p1);
    }
    arr.Push(domain[p1..]);
  }

  lemma CutOne(got: seq<Label>, s: string, p1: nat, p2: nat)
    requires p1 <= p2 < |s| && p2 == p1 + FirstDot(s[p1..])
    ensures (got + [s[p1..p2]]) + Split(s[p2 + 1..]) == got + Split(s[p1..])
  {
    assert s[p1..][..p2 - p1] == s[p1..p2] && s[p1..][p2 - p1 + 1..] == s[p2 + 1..];
    SplitFirst(got, s[p1..], p2 - p1, s[p1..p2], s[p2 + 1..]);
  }

  lemma SplitFirst(got: seq<Label>, raw: string, i: nat, l: Label, rest: string)
    requires i == FirstDot(raw) < |raw| && raw[..i] == l && raw[i + 1..] == rest
    ensures (got + [l]) + Split(rest) == got + Split(raw)
  {
    Associative(got, [l], Split(rest));
  }

  /** strchr */
  method NextDot(s: string, start: nat) returns (i: nat)
    requires start <= |s|
    ensures i == start + FirstDot(s[start..])
  {
    i := start;
    while i < |s| && s[i] != DOT
      invariant start <= i <= |s| && start + FirstDot(s[start..]) == i + FirstDot(s[i..])
    {
      assert s[i..][1..] == s[i + 1..];
      i := i + 1;
    }
  }

  /** trie_insert_domain: put-if-absent on the map from names to values. */
  method InsertDomain(root: Node, v: Option<Value>, domain: string) returns (was: Option<Value>)
    requires root.Valid() && Sound(root.tree)
    modifies root.repr
    ensures root.Valid() && Sound(root.tree) && fresh(root.repr - old(root.repr))
    ensures was == Binding(old(root.tree), domain)
    ensures forall d :: Binding(root.tree, d) == if d == domain && was.None? then v else Binding(old(root.tree), d)
    ensures (root.tree, was) == Trie.Insert(old(root.tree), PathOf(domain), v)
    ensures v.Some? && Lean(old(root.tree)) ==> Lean(root.tree)
  {
    var arr := SplitDomain(domain);
    was := root.Insert(v, arr);
    if v.Some? && Lean(old(root.tree)) { InsertKeepsLean(old(root.tree), PathOf(domain), v.value); }
    InsertKeepsSound(old(root.tree), PathOf(domain), v);
    Domains.InsertDomain(old(root.tree), domain, v, domain);
    forall d
      ensures Binding(root.tree, d) == if d == domain && was.None? then v else Binding(old(root.tree), d)
    {
      Domains.InsertDomain(old(root.tree), domain, v, d);
    }
  }

  /** trie_get_domain */
  method GetDomain(root: Node, domain: string) returns (ret: Option<Value>)
    requires root.Valid() && Sound(root.tree)
    ensures Binding(root.tree, domain).Some? ==> ret == Binding(root.tree, domain)
    ensures ret.Some? <==> Binding(root.tree, domain).Some? || exists k: nat :: Offers(root.tree, PathOf(domain), k)
    ensures Binding(root.tree, domain).None? && ret.Some? ==>
      exists k: nat :: k < |Split(domain)| && ret == Binding(root.tree, WildcardOf(domain, k))
  {
    var arr := SplitDomain(domain);
    ret := root.Get(arr, None);
    Domains.GetDomain(root.tree, domain);
    GetFinds(root.tree, PathOf(domain));
  }

  /** trie_remove_domain: the name is unbound, and with it every proper suffix of it, as soon as its
      parent is in the tree. */
  method RemoveDomain(root: Node, domain: string) returns (ret: Option<Value>)
    requires root.Valid() && Sound(root.tree)
    modifies root.repr
    ensures root.Valid() && Sound(root.tree) && root.repr == old(root.repr)
    ensures ret == Binding(old(root.tree), domain) && Binding(root.tree, domain) == None
    ensures var path := PathOf(domain);
      forall d :: Binding(root.tree, d) ==
        if NodeAt(old(root.tree), path[..|path| - 1]).Some? && PathOf(d) <= path then None
        else Binding(old(root.tree), d)
    ensures var path := PathOf(domain);
      UnbindsOnly(old(root.tree), root.tree, path) <==>
        || NodeAt(old(root.tree), path[..|path| - 1]).None?
        || forall q :: [] < q < path ==> Lookup(old(root.tree), q).None?
    ensures root.tree == Trie.Remove(old(root.tree), PathOf(domain)).tree
    ensures Lean(old(root.tree)) ==> Lean(root.tree)
  {
    var arr := SplitDomain(domain);
    ghost var before, path := root.tree, PathOf(domain);
    ret := root.Remove(arr);
    RemoveKeepsSound(before, path);
    RemoveReaches(before, path);
    RemoveIsExact(before, path);
    RemoveClears(before, path, path);
    forall d
      ensures Binding(root.tree, d) ==
        if NodeAt(before, path[..|path| - 1]).Some? && PathOf(d) <= path then None else Binding(before, d)
    {
      RemoveClears(before, path, PathOf(d));
    }
    if NodeAt(before, path[..|path| - 1]).None? { MissingParent(before, path); }
    if Lean(before) { RemoveKeepsLean(before, path); }
  }

  datatype Command = Register(domain: string, v: Value) | Unregister(domain: string)

  function OpOf(c: Command): (op: Op)
    ensures op.path != []
  {
    match c
    case Register(domain, v) => Bind(PathOf(domain), v)
    case Unregister(domain) => Unbind(PathOf(domain))
  }

  function OpsOf(cs: seq<Command>): (ops: seq<Op>)
    ensures |ops| == |cs|
  {
    seq(|cs|, i requires 0 <= i < |cs| => OpOf(cs[i]))
  }

  /** One command, on the tree that shows the map m. */
  method Perform(root: Node, c: Command, ghost m: Names) returns (ret: Option<Value>)
    requires root.Valid() && Sound(root.tree) && Lean(root.tree) && Shows(root.tree, m)
    modifies root.repr
    ensures root.Valid() && Sound(root.tree) && Lean(root.tree) && fresh(root.repr - old(root.repr))
    ensures Shows(root.tree, Apply(m, OpOf(c))) && ret == Found(m, OpOf(c))
  {
    ChangeIsApply(root.tree, m, OpOf(c));
    match c {
      case Register(domain, v) => ret := InsertDomain(root, Some(v), domain);
      case Unregister(domain) => ret := RemoveDomain(root, domain);
    }
  }

  /** Whole runs: the trie is the map that the operations make, and keeps no node for nothing. */
  method Execute(root: Node, cs: seq<Command>, ghost m: Names) returns (rets: seq<Option<Value>>)
    requires root.Valid() && Sound(root.tree) && Lean(root.tree) && Shows(root.tree, m)
    modifies root.repr
    ensures root.Valid() && Sound(root.tree) && Lean(root.tree)
    ensures Shows(root.tree, Run(m, OpsOf(cs))) && rets == Results(m, OpsOf(cs))
    ensures Run(m, OpsOf(cs)) == map[] ==> root.child == []
  {
    rets := [];
    ghost var ops, m' := OpsOf(cs), m;
    for k := 0 to |cs|
      invariant root.Valid() && Sound(root.tree) && Lean(root.tree) && fresh(root.repr - old(root.repr))
      invariant Shows(root.tree, m') && Run(m', ops[k..]) == Run(m, ops)
      invariant rets + Results(m', ops[k..]) == Results(m, ops)
    {
      var ret := Perform(root, cs[k], m');
      RunStep(m', ops, k, rets);
      rets := rets + [ret];
      m' := Apply(m', ops[k]);
    }
    if m' == map[] { NothingLeft(root.tree); }
  }
}
