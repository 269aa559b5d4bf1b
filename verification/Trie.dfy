/** A tree of labels, from the top-level label down, that maps domain names to values. */
module Trie {
  import opened Wrappers

  type Label = string
  type Path = seq<Label>   // top-level label first
  type Value = nat         // a pointer that is not NULL

  datatype Tree = Tree(key: Label, value: Option<Value>, child: seq<Tree>)

  /** The position of the first child with this key, or the number of children. */
  function Find(cs: seq<Tree>, key: Label): (i: nat)
    ensures i <= |cs|
    ensures i < |cs| ==> cs[i].key == key
    ensures forall j :: 0 <= j < i ==> cs[j].key != key
  {
    if cs == [] || cs[0].key == key then 0 else 1 + Find(cs[1..], key)
  }

  lemma FindIs(cs: seq<Tree>, key: Label, i: nat)
    requires i <= |cs| && (i < |cs| ==> cs[i].key == key) && forall j :: 0 <= j < i ==> cs[j].key != key
    ensures Find(cs, key) == i
  {
  }

  function Child(cs: seq<Tree>, key: Label): (c: Option<Tree>)
    ensures c.Some? ==> c.value.key == key
  {
    var i := Find(cs, key);
    if i < |cs| then Some(cs[i]) else None
  }

  /** Siblings have different keys. */
  predicate Distinct(cs: seq<Tree>) {
    forall i, j :: 0 <= i < j < |cs| ==> cs[i].key != cs[j].key
  }

  predicate Sound(t: Tree) {
    Distinct(t.child) && forall i :: 0 <= i < |t.child| ==> Sound(t.child[i])
  }

  // ----- the map that a tree stands for

  function NodeAt(t: Tree, path: Path): Option<Tree>
    decreases |path|
  {
    if path == [] then Some(t) else
    match Child(t.child, path[0])
    case None => None
    case Some(c) => NodeAt(c, path[1..])
  }

  function Lookup(t: Tree, path: Path): Option<Value> {
    var n := NodeAt(t, path);
    if n.Some? then n.value.value else None
  }

  /** Nothing is bound below a node that is vacant. */
  predicate Vacant(t: Tree) {
    t.child == [] && t.value.None?
  }

  lemma VacantLookup(t: Tree, q: Path)
    requires Vacant(t)
    ensures Lookup(t, q) == None
  {
  }

  // ----- insertion

  function Put(cs: seq<Tree>, i: nat, c: Tree): seq<Tree>
    requires i <= |cs|
  {
    if i < |cs| then cs[i := c] else cs + [c]
  }

  /** The child to go on with, a new one if there is none. */
  function Next(cs: seq<Tree>, key: Label): (c: Tree)
    ensures c.key == key
  {
    match Child(cs, key)
    case None => Tree(key, None, [])
    case Some(c) => c
  }

  /** trie_insert_arr: the new tree and the value that was there. */
  function Insert(t: Tree, path: Path, v: Option<Value>): (Tree, Option<Value>)
    requires path != []
    decreases |path|
  {
    var i, c := Find(t.child, path[0]), Next(t.child, path[0]);
    if |path| == 1 then (t.(child := Put(t.child, i, Fill(c, v))), c.value)
    else var (c', was) := Insert(c, path[1..], v); (t.(child := Put(t.child, i, c')), was)
  }

  function Fill(c: Tree, v: Option<Value>): Tree {
    if c.value.None? then c.(value := v) else c
  }

  lemma ChildAfterPut(cs: seq<Tree>, key: Label, c: Tree, k: Label)
    requires c.key == key
    ensures Child(Put(cs, Find(cs, key), c), k) == if k == key then Some(c) else Child(cs, k)
  {
    var i := Find(cs, key);
    var cs', m := Put(cs, i, c), Find(cs, k);
    if k == key {
      FindIs(cs', k, i);
    } else {
      FindIs(cs', k, if m < |cs| then m else |cs'|);
    }
  }

  /** One level of a change: names under the changed child are looked up there, others as before. */
  lemma LookupAfterPut(t: Tree, t': Tree, key: Label, c: Tree, q: Path)
    requires c.key == key && t' == t.(child := Put(t.child, Find(t.child, key), c))
    ensures Lookup(t', q) == if q != [] && q[0] == key then Lookup(c, q[1..]) else Lookup(t, q)
    ensures q != [] && q[0] == key ==> Lookup(t, q) == Lookup(Next(t.child, key), q[1..])
  {
    if q != [] {
      ChildAfterPut(t.child, key, c, q[0]);
      if Child(t.child, q[0]).None? { VacantLookup(Tree(key, None, []), q[1..]); }
    }
  }

  lemma FillLookup(c: Tree, v: Option<Value>, q: Path)
    ensures Lookup(Fill(c, v), q) == if q == [] && c.value.None? then v else Lookup(c, q)
  {
  }

  lemma {:induction false} InsertKeepsRoot(t: Tree, path: Path, v: Option<Value>)
    requires path != []
    ensures Insert(t, path, v).0.key == t.key && Insert(t, path, v).0.value == t.value
  {
  }

  /** Insertion binds the name if it was not bound, and changes no other binding. */
  lemma {:induction false} InsertIsPutIfAbsent(t: Tree, path: Path, v: Option<Value>, q: Path)
    requires path != []
    ensures Insert(t, path, v).1 == Lookup(t, path)
    ensures Lookup(Insert(t, path, v).0, q) == if q == path && Lookup(t, path).None? then v else Lookup(t, q)
    decreases |path|
  {
    var key, below := path[0], if q == [] then [] else q[1..];
    var c, t' := Next(t.child, key), Insert(t, path, v).0;
    if |path| == 1 {
      LookupAfterPut(t, t', key, Fill(c, v), q);
      LookupAfterPut(t, t', key, Fill(c, v), path);
      FillLookup(c, v, below);
    } else {
      InsertKeepsRoot(c, path[1..], v);
      InsertIsPutIfAbsent(c, path[1..], v, below);
      LookupAfterPut(t, t', key, Insert(c, path[1..], v).0, q);
      LookupAfterPut(t, t', key, Insert(c, path[1..], v).0, path);
    }
    SamePath(path, q);
  }

  lemma SamePath(p: Path, q: Path)
    requires p != []
    ensures q == p <==> q != [] && q[0] == p[0] && q[1..] == p[1..]
  {
    if q != [] && q[0] == p[0] && q[1..] == p[1..] {
      assert q == [q[0]] + q[1..] == [p[0]] + p[1..] == p;
    }
  }

  lemma PutKeepsSound(t: Tree, key: Label, c: Tree)
    requires Sound(t) && Sound(c) && c.key == key
    ensures Sound(t.(child := Put(t.child, Find(t.child, key), c)))
  {
    var i := Find(t.child, key);
    var cs := Put(t.child, i, c);
    assert forall j :: 0 <= j < |cs| ==> cs[j] == if j == i then c else t.child[j];
  }

  lemma {:induction false} InsertKeepsSound(t: Tree, path: Path, v: Option<Value>)
    requires path != [] && Sound(t)
    ensures Sound(Insert(t, path, v).0)
    decreases |path|
  {
    var c := Next(t.child, path[0]);
    if |path| == 1 {
      PutKeepsSound(t, path[0], Fill(c, v));
    } else {
      InsertKeepsSound(c, path[1..], v);
      InsertKeepsRoot(c, path[1..], v);
      PutKeepsSound(t, path[0], Insert(c, path[1..], v).0);
    }
  }

  // ----- removal

  datatype Removal = Removal(tree: Tree, value: Option<Value>, left: nat)

  function Delete<T>(s: seq<T>, i: nat): seq<T>
    requires i < |s|
  {
    s[..i] + s[i + 1..]
  }

  /** Where child i was, there is c now, or nothing if c is vacant. */
  function Replace(cs: seq<Tree>, i: nat, c: Tree): seq<Tree>
    requires i < |cs|
  {
    if Vacant(c) then Delete(cs, i) else cs[i := c]
  }

  /** _trie_remove: the new tree, the value that was there, and how many labels were not popped. */
  function Remove(t: Tree, path: Path): Removal
    requires path != []
    decreases |path|
  {
    var i := Find(t.child, path[0]);
    if i == |t.child| then Removal(t, None, |path| - 1) else
    var r := Below(t.child[i], path);
    Removal(t.(child := Replace(t.child, i, Cleared(r))), r.value, r.left)
  }

  /** What happens in the child that matches the first label. */
  function Below(c: Tree, path: Path): Removal
    requires path != []
    decreases |path|, 0
  {
    if |path| == 1 then Removal(c, c.value, 0) else Remove(c, path[1..])
  }

  /** The value is cleared whenever no label is left to pop, also on the way back. */
  function Cleared(r: Removal): Tree {
    if r.left == 0 then r.tree.(value := None) else r.tree
  }

  lemma ChildAfterReplace(cs: seq<Tree>, i: nat, c: Tree, k: Label)
    requires Distinct(cs) && i < |cs| && c.key == cs[i].key
    ensures Child(Replace(cs, i, c), k) == if k != c.key then Child(cs, k) else if Vacant(c) then None else Some(c)
  {
    var cs', m := Replace(cs, i, c), Find(cs, k);
    assert k != c.key ==> m != i;
    if Vacant(c) {
      assert forall j :: 0 <= j < |cs'| ==> cs'[j] == cs[if j < i then j else j + 1];
      FindIs(cs', k, if k == c.key || m == |cs| then |cs'| else if m < i then m else m - 1);
    } else {
      FindIs(cs', k, m);
    }
  }

  lemma ReplaceKeepsSound(t: Tree, i: nat, c: Tree)
    requires Sound(t) && Sound(c) && i < |t.child| && c.key == t.child[i].key
    ensures Sound(t.(child := Replace(t.child, i, c)))
  {
    var cs := Replace(t.child, i, c);
    if Vacant(c) {
      assert forall j :: 0 <= j < |cs| ==> cs[j] == t.child[if j < i then j else j + 1];
    } else {
      assert forall j :: 0 <= j < |cs| ==> cs[j] == if j == i then c else t.child[j];
    }
  }

  /** One level of a removal. */
  lemma LookupAfterReplace(t: Tree, t': Tree, i: nat, c: Tree, q: Path)
    requires Distinct(t.child) && i < |t.child| && c.key == t.child[i].key && t' == t.(child := Replace(t.child, i, c))
    ensures Lookup(t', q) == if q != [] && q[0] == c.key then Lookup(c, q[1..]) else Lookup(t, q)
    ensures q != [] && q[0] == c.key ==> NodeAt(t, q) == NodeAt(t.child[i], q[1..])
  {
    if q != [] {
      ChildAfterReplace(t.child, i, c, q[0]);
      if q[0] == c.key { FindIs(t.child, q[0], i); }
      if Vacant(c) { VacantLookup(c, q[1..]); }
    }
  }

  lemma {:induction false} RemoveKeepsRoot(t: Tree, path: Path)
    requires path != []
    ensures Remove(t, path).tree.key == t.key && Remove(t, path).tree.value == t.value
  {
  }

  lemma BelowKeepsRoot(c: Tree, path: Path)
    requires path != []
    ensures Below(c, path).tree.key == c.key && Below(c, path).tree.value == c.value
    ensures Cleared(Below(c, path)).key == c.key
  {
    if |path| > 1 { RemoveKeepsRoot(c, path[1..]); }
  }

  lemma {:induction false} RemoveKeepsSound(t: Tree, path: Path)
    requires path != [] && Sound(t)
    ensures Sound(Remove(t, path).tree)
    decreases |path|
  {
    var i := Find(t.child, path[0]);
    if i < |t.child| {
      if |path| > 1 { RemoveKeepsSound(t.child[i], path[1..]); }
      BelowKeepsRoot(t.child[i], path);
      ReplaceKeepsSound(t, i, Cleared(Below(t.child[i], path)));
    }
  }

  /** Whether a removal gets to the end of the name: the parent of the name is in the tree. */
  lemma {:induction false} RemoveReaches(t: Tree, path: Path)
    requires path != []
    ensures Remove(t, path).value == Lookup(t, path)
    ensures Remove(t, path).left == 0 <==> NodeAt(t, path[..|path| - 1]).Some?
    decreases |path|
  {
    var i := Find(t.child, path[0]);
    if |path| == 1 {
      assert path[..0] == [] && (i < |t.child| ==> NodeAt(t, path) == NodeAt(t.child[i], []));
    } else if i < |t.child| {
      RemoveReaches(t.child[i], path[1..]);
      assert path[..|path| - 1][1..] == path[1..][..|path| - 2];
    }
  }

  /** What a removal unbinds, if it gets to the end: the name and every proper suffix of it. */
  lemma {:induction false} RemoveClears(t: Tree, path: Path, q: Path)
    requires path != [] && Sound(t)
    ensures Lookup(Remove(t, path).tree, q) ==
      if Remove(t, path).left == 0 && [] < q <= path then None else Lookup(t, q)
    decreases |path|
  {
    var i := Find(t.child, path[0]);
    if i < |t.child| {
      var r, below := Below(t.child[i], path), if q == [] then [] else q[1..];
      BelowKeepsRoot(t.child[i], path);
      if |path| > 1 { RemoveClears(t.child[i], path[1..], below); }
      ClearedLookup(r, below);
      LookupAfterReplace(t, Remove(t, path).tree, i, Cleared(r), q);
      PrefixStep(path, q);
    } else {
      PrefixMissing(t, path, q);
    }
  }

  lemma ClearedLookup(r: Removal, q: Path)
    ensures Lookup(Cleared(r), q) == if q == [] && r.left == 0 then None else Lookup(r.tree, q)
  {
  }

  lemma PrefixStep(p: Path, q: Path)
    requires p != []
    ensures [] < q <= p <==> q != [] && q[0] == p[0] && q[1..] <= p[1..]
  {
    if q != [] && q[0] == p[0] && q[1..] <= p[1..] {
      assert q == [q[0]] + q[1..] && p == [p[0]] + p[1..];
    }
  }

  lemma PrefixMissing(t: Tree, p: Path, q: Path)
    requires p != [] && Child(t.child, p[0]).None?
    ensures [] < q <= p ==> Lookup(t, q) == None
  {
  }

  /** Exactly this name loses its binding. */
  ghost predicate UnbindsOnly(t: Tree, t': Tree, path: Path) {
    forall q :: Lookup(t', q) == if q == path then None else Lookup(t, q)
  }

  /** A removal is exact if and only if no proper suffix of the name is bound, or the name's parent is
      not even in the tree. */
  lemma RemoveIsExact(t: Tree, path: Path)
    requires path != [] && Sound(t)
    ensures UnbindsOnly(t, Remove(t, path).tree, path) <==>
      NodeAt(t, path[..|path| - 1]).None? || forall q :: [] < q < path ==> Lookup(t, q).None?
  {
    var t' := Remove(t, path).tree;
    RemoveReaches(t, path);
    forall q
      ensures Lookup(t', q) == if Remove(t, path).left == 0 && [] < q <= path then None else Lookup(t, q)
    {
      RemoveClears(t, path, q);
    }
    RemoveClears(t, path, path);
    if NodeAt(t, path[..|path| - 1]).None? { MissingParent(t, path); }
  }

  lemma {:induction false} MissingParent(t: Tree, path: Path)
    requires path != [] && NodeAt(t, path[..|path| - 1]).None?
    ensures Lookup(t, path) == None
    decreases |path|
  {
    if |path| > 1 && Child(t.child, path[0]).Some? {
      assert path[..|path| - 1][1..] == path[1..][..|path| - 2];
      MissingParent(Child(t.child, path[0]).value, path[1..]);
    }
  }

  /** Removing a name that was never bound unbinds its parent. */
  lemma RemoveUnbindsParent()
    ensures var t := Insert(Tree("", None, []), ["com"], Some(1)).0;
      && Lookup(t, ["com", "a"]) == None
      && Lookup(t, ["com"]) == Some(1)
      && Lookup(Remove(t, ["com", "a"]).tree, ["com"]) == None
  {
    var empty := Tree("", None, []);
    var t := Insert(empty, ["com"], Some(1)).0;
    VacantLookup(empty, ["com"]);
    VacantLookup(empty, ["com", "a"]);
    InsertIsPutIfAbsent(empty, ["com"], Some(1), ["com"]);
    InsertIsPutIfAbsent(empty, ["com"], Some(1), ["com", "a"]);
    InsertIsPutIfAbsent(empty, ["com"], Some(1), []);
    InsertKeepsSound(empty, ["com"], Some(1));
    RemoveReaches(t, ["com", "a"]);
    assert ["com", "a"][..1] == ["com"];
    RemoveClears(t, ["com", "a"], ["com"]);
  }

  /** No node is kept for nothing. */
  predicate Lean(t: Tree) {
    forall i :: 0 <= i < |t.child| ==> !Vacant(t.child[i]) && Lean(t.child[i])
  }

  /** Insertion of a value, and removal, leave no node that is neither bound nor above one. */
  lemma {:induction false} InsertKeepsLean(t: Tree, path: Path, v: Value)
    requires path != [] && Lean(t)
    ensures Lean(Insert(t, path, Some(v)).0) && !Vacant(Insert(t, path, Some(v)).0)
    decreases |path|
  {
    var i, c := Find(t.child, path[0]), Next(t.child, path[0]);
    if |path| > 1 { InsertKeepsLean(c, path[1..], v); }
    var c' := if |path| == 1 then Fill(c, Some(v)) else Insert(c, path[1..], Some(v)).0;
    var cs := Put(t.child, i, c');
    assert forall j :: 0 <= j < |cs| ==> cs[j] == if j == i then c' else t.child[j];
  }

  lemma {:induction false} RemoveKeepsLean(t: Tree, path: Path)
    requires path != [] && Lean(t)
    ensures Lean(Remove(t, path).tree)
    decreases |path|
  {
    var i := Find(t.child, path[0]);
    if i < |t.child| {
      if |path| > 1 { RemoveKeepsLean(t.child[i], path[1..]); }
      var c := Cleared(Below(t.child[i], path));
      var cs := Replace(t.child, i, c);
      if Vacant(c) {
        assert forall j :: 0 <= j < |cs| ==> cs[j] == t.child[if j < i then j else j + 1];
      } else {
        assert forall j :: 0 <= j < |cs| ==> cs[j] == if j == i then c else t.child[j];
      }
    }
  }

  /** In a lean tree every node but the root is a name that is bound, or a suffix of one. */
  lemma {:induction false} LeanNode(t: Tree) returns (q: Path)
    requires Lean(t) && !Vacant(t) && Sound(t)
    ensures Lookup(t, q).Some?
  {
    if t.value.Some? {
      q := [];
    } else {
      q := LeanNode(t.child[0]);
      q := [t.child[0].key] + q;
      FindIs(t.child, t.child[0].key, 0);
    }
  }
}
