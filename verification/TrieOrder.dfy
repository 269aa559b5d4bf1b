/** The order of siblings, which decides between wildcards: new children go behind the others, and what is
    removed leaves the others in their order. */
module TrieOrder {
  import opened Wrappers
  import opened Trie

  function Keys(n: Tree): (ks: seq<Label>)
    ensures |ks| == |n.child| && forall i :: 0 <= i < |ks| ==> ks[i] == n.child[i].key
  {
    seq(|n.child|, i requires 0 <= i < |n.child| => n.child[i].key)
  }

  /** The same keys in the same order, but for one that has been added behind them. */
  ghost predicate Grown(ks: seq<Label>, ks': seq<Label>, key: Label) {
    ks' == ks || ks' == ks + [key]
  }

  /** The same keys in the same order, but for one that is gone. */
  ghost predicate Shrunk(ks: seq<Label>, ks': seq<Label>) {
    ks' == ks || exists i: nat :: i < |ks| && ks' == Delete(ks, i)
  }

  lemma PutGrows(t: Tree, key: Label, c: Tree)
    requires c.key == key
    ensures Grown(Keys(t), Keys(t.(child := Put(t.child, Find(t.child, key), c))), key)
  {
    var i := Find(t.child, key);
    var ks, ks' := Keys(t), Keys(t.(child := Put(t.child, i, c)));
    if i < |t.child| {
      assert ks' == ks;
    } else {
      assert ks' == ks + [key];
    }
  }

  /** Insertion puts the child that a node on the way may lack behind its other children, and leaves every
      other node's children as they are. */
  lemma {:induction false} InsertionGrows(t: Tree, path: Path, v: Option<Value>, p: Path)
    requires path != [] && NodeAt(t, p).Some?
    ensures var n', n := NodeAt(Insert(t, path, v).0, p), NodeAt(t, p).value;
      n'.Some? && if p < path then Grown(Keys(n), Keys(n'.value), path[|p|]) else Keys(n'.value) == Keys(n)
    decreases |path|
  {
    var c, t' := Next(t.child, path[0]), Insert(t, path, v).0;
    var c' := if |path| == 1 then Fill(c, v) else Insert(c, path[1..], v).0;
    if |path| > 1 { InsertKeepsRoot(c, path[1..], v); }
    if p == [] {
      PutGrows(t, path[0], c');
    } else {
      ChildAfterPut(t.child, path[0], c', p[0]);
      PrefixTail(p, path);
      if p[0] == path[0] {
        if |path| > 1 {
          InsertionGrows(c, path[1..], v, p[1..]);
        } else {
          FillKeeps(c, v, p[1..]);
        }
      }
    }
  }

  lemma PrefixTail(p: Path, path: Path)
    requires p != [] && path != []
    ensures p < path <==> p[0] == path[0] && p[1..] < path[1..]
    ensures p < path ==> path[|p|] == path[1..][|p[1..]|]
  {
    if p[0] == path[0] && p[1..] < path[1..] {
      assert p == [p[0]] + p[1..] && path == [path[0]] + path[1..];
    }
  }

  lemma FillKeeps(c: Tree, v: Option<Value>, p: Path)
    requires NodeAt(c, p).Some?
    ensures NodeAt(Fill(c, v), p).Some? && Keys(NodeAt(Fill(c, v), p).value) == Keys(NodeAt(c, p).value)
  {
  }

  lemma ReplaceShrinks(t: Tree, i: nat, c: Tree)
    requires i < |t.child| && c.key == t.child[i].key
    ensures Shrunk(Keys(t), Keys(t.(child := Replace(t.child, i, c))))
  {
    var ks, ks' := Keys(t), Keys(t.(child := Replace(t.child, i, c)));
    if Vacant(c) {
      assert ks' == Delete(ks, i);
    } else {
      assert ks' == ks;
    }
  }

  /** Removal takes at most one child from a node on the way, and keeps the order of the others. */
  lemma {:induction false} RemovalShrinks(t: Tree, path: Path, p: Path)
    requires path != [] && Sound(t) && NodeAt(Remove(t, path).tree, p).Some?
    ensures NodeAt(t, p).Some?
    ensures Shrunk(Keys(NodeAt(t, p).value), Keys(NodeAt(Remove(t, path).tree, p).value))
    decreases |path|
  {
    var i := Find(t.child, path[0]);
    if i < |t.child| {
      var r := Below(t.child[i], path);
      var c := Cleared(r);
      BelowKeepsRoot(t.child[i], path);
      if p == [] {
        ReplaceShrinks(t, i, c);
      } else {
        ChildAfterReplace(t.child, i, c, p[0]);
        if p[0] == path[0] {
          FindIs(t.child, p[0], i);
          ClearedKeeps(r, p[1..]);
          if |path| > 1 { RemovalShrinks(t.child[i], path[1..], p[1..]); }
        }
      }
    }
  }

  lemma ClearedKeeps(r: Removal, p: Path)
    requires NodeAt(Cleared(r), p).Some?
    ensures NodeAt(r.tree, p).Some? && Keys(NodeAt(r.tree, p).value) == Keys(NodeAt(Cleared(r), p).value)
  {
  }
}
