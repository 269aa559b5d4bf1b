/** The trie as a plain map: in a tree without useless nodes, insertion and removal are operations on
    the map from names to values alone. */
module TrieMap {
  import opened Wrappers
  import opened Trie

  type Names = map<Path, Value>

  datatype Op = Bind(path: Path, v: Value) | Unbind(path: Path)

  function At(m: Names, q: Path): Option<Value> {
    if q in m then Some(m[q]) else None
  }

  /** The tree binds what the map binds. */
  ghost predicate Shows(t: Tree, m: Names) {
    forall q :: Lookup(t, q) == At(m, q)
  }

  /** Some bound name goes on from here. */
  predicate Leads(m: Names, p: Path) {
    p == [] || exists q :: q in m && p <= q
  }

  /** A removal takes the suffixes of the name with it, if any bound name has the parent for suffix. */
  function Apply(m: Names, op: Op): Names {
    match op
    case Bind(path, v) => if path in m then m else m[path := v]
    case Unbind(path) =>
      if path != [] && Leads(m, path[..|path| - 1]) then map q | q in m && !([] < q <= path) :: m[q] else m
  }

  /** What the operation returns: the value there was. */
  function Found(m: Names, op: Op): Option<Value> {
    At(m, op.path)
  }

  function Run(m: Names, ops: seq<Op>): Names
    decreases |ops|
  {
    if ops == [] then m else Run(Apply(m, ops[0]), ops[1..])
  }

  /** What all the operations return. */
  function Results(m: Names, ops: seq<Op>): seq<Option<Value>>
    decreases |ops|
  {
    if ops == [] then [] else [Found(m, ops[0])] + Results(Apply(m, ops[0]), ops[1..])
  }

  lemma RunStep(m: Names, ops: seq<Op>, k: nat, got: seq<Option<Value>>)
    requires k < |ops|
    ensures Run(m, ops[k..]) == Run(Apply(m, ops[k]), ops[k + 1..])
    ensures got + Results(m, ops[k..]) == got + [Found(m, ops[k])] + Results(Apply(m, ops[k]), ops[k + 1..])
  {
    assert ops[k..][1..] == ops[k + 1..];
  }

  /** The same operation on the tree. */
  function Change(t: Tree, op: Op): (Tree, Option<Value>)
    requires op.path != []
  {
    match op
    case Bind(path, v) => Insert(t, path, Some(v))
    case Unbind(path) => var r := Remove(t, path); (r.tree, r.value)
  }

  /** In a lean tree every node is on the way to a name that is bound. */
  lemma {:induction false} LeanNodes(t: Tree, p: Path) returns (q: Path)
    requires Lean(t) && Sound(t) && p != [] && NodeAt(t, p).Some?
    ensures p <= q && Lookup(t, q).Some?
    decreases |p|
  {
    var c := t.child[Find(t.child, p[0])];
    var below: Path;
    if |p| == 1 {
      below := LeanNode(c);
    } else {
      below := LeanNodes(c, p[1..]);
    }
    q := [p[0]] + below;
    assert q[1..] == below && p == [p[0]] + p[1..];
  }

  lemma {:induction false} PrefixNode(t: Tree, p: Path, q: Path)
    requires p <= q && NodeAt(t, q).Some?
    ensures NodeAt(t, p).Some?
    decreases |p|
  {
    if p != [] {
      assert p[1..] <= q[1..];
      PrefixNode(Child(t.child, p[0]).value, p[1..], q[1..]);
    }
  }

  /** Which nodes a lean tree has is told by the map. */
  lemma NodesAreLeads(t: Tree, m: Names, p: Path)
    requires Lean(t) && Sound(t) && Shows(t, m)
    ensures NodeAt(t, p).Some? <==> Leads(m, p)
  {
    if p != [] && NodeAt(t, p).Some? {
      var q := LeanNodes(t, p);
      assert q in m;
    } else if p != [] && Leads(m, p) {
      var q :| q in m && p <= q;
      assert Lookup(t, q).Some?;
      PrefixNode(t, p, q);
    }
  }

  /** One operation on the tree is the operation on the map. */
  lemma ChangeIsApply(t: Tree, m: Names, op: Op)
    requires op.path != [] && Lean(t) && Sound(t) && Shows(t, m)
    ensures var (t', was) := Change(t, op);
      Lean(t') && Sound(t') && Shows(t', Apply(m, op)) && was == Found(m, op)
  {
    match op {
      case Bind(path, v) => PutIsApply(t, m, path, v);
      case Unbind(path) => CutIsApply(t, m, path);
    }
  }

  lemma PutIsApply(t: Tree, m: Names, path: Path, v: Value)
    requires path != [] && Lean(t) && Sound(t) && Shows(t, m)
    ensures var (t', was) := Insert(t, path, Some(v));
      Lean(t') && Sound(t') && Shows(t', Apply(m, Bind(path, v))) && was == At(m, path)
  {
    InsertKeepsSound(t, path, Some(v));
    InsertKeepsLean(t, path, v);
    InsertIsPutIfAbsent(t, path, Some(v), path);
    forall q
      ensures Lookup(Insert(t, path, Some(v)).0, q) == At(Apply(m, Bind(path, v)), q)
    {
      InsertIsPutIfAbsent(t, path, Some(v), q);
    }
  }

  lemma CutIsApply(t: Tree, m: Names, path: Path)
    requires path != [] && Lean(t) && Sound(t) && Shows(t, m)
    ensures var r := Remove(t, path);
      Lean(r.tree) && Sound(r.tree) && Shows(r.tree, Apply(m, Unbind(path))) && r.value == At(m, path)
  {
    RemoveKeepsSound(t, path);
    RemoveKeepsLean(t, path);
    RemoveReaches(t, path);
    NodesAreLeads(t, m, path[..|path| - 1]);
    forall q
      ensures Lookup(Remove(t, path).tree, q) == At(Apply(m, Unbind(path)), q)
    {
      RemoveClears(t, path, q);
    }
  }

  /** A lean tree that binds nothing has no nodes to free. */
  lemma NothingLeft(t: Tree)
    requires Lean(t) && Sound(t) && Shows(t, map[])
    ensures Vacant(t)
  {
    if !Vacant(t) { var q := LeanNode(t); }
  }
}
