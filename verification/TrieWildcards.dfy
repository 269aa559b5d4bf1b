/** Which wildcard answers a search, when several could. */
module TrieWildcards {
  import opened Wrappers
  import opened Trie
  import opened TrieSearch

  /** On the way down, the star below the first k labels is met before the node for the next label. */
  ghost predicate Passed(t: Tree, path: Path, k: nat) {
    k < |path|
    && var n := NodeAt(t, path[..k]);
       n.Some? && Find(n.value.child, STAR) < Find(n.value.child, path[k])
  }

  /** The value of the last star met down to level k, bound or not; `wild` if none was. */
  ghost function Carried(t: Tree, path: Path, wild: Option<Value>, k: nat): Option<Value>
    requires k < |path|
  {
    if Passed(t, path, k) then Lookup(t, Starred(path, k))
    else if k == 0 then wild
    else Carried(t, path, wild, k - 1)
  }

  /** A wildcard that is not met on the way down counts only if none that is bound was met before. */
  ghost predicate Counts(t: Tree, path: Path, wild: Option<Value>, k: nat) {
    Offers(t, path, k) && (Passed(t, path, k) || Carried(t, path, wild, k).None?)
  }

  /** The deepest wildcard that counts. */
  ghost predicate Wins(t: Tree, path: Path, wild: Option<Value>, k: nat) {
    Counts(t, path, wild, k) && forall j :: k < j < |path| ==> !Counts(t, path, wild, j)
  }

  lemma PassedHere(t: Tree, path: Path)
    requires path != []
    ensures Passed(t, path, 0) <==> Find(t.child, STAR) < Find(t.child, path[0])
  {
    assert path[..0] == [];
  }

  lemma PassedBelow(t: Tree, path: Path, k: nat)
    requires 0 < k < |path|
    ensures Child(t.child, path[0]).None? ==> !Passed(t, path, k)
    ensures Child(t.child, path[0]).Some? ==>
      (Passed(t, path, k) <==> Passed(Child(t.child, path[0]).value, path[1..], k - 1))
  {
    assert path[..k][1..] == path[1..][..k - 1];
  }

  lemma {:induction false} CarriedBelow(t: Tree, path: Path, wild: Option<Value>, k: nat)
    requires 0 < k < |path| && Child(t.child, path[0]).Some?
    ensures Carried(t, path, wild, k)
      == Carried(Child(t.child, path[0]).value, path[1..], Carried(t, path, wild, 0), k - 1)
    decreases k
  {
    PassedBelow(t, path, k);
    OffersBelow(t, path, k);
    if k > 1 { CarriedBelow(t, path, wild, k - 1); }
  }

  lemma CountsBelow(t: Tree, path: Path, wild: Option<Value>, k: nat)
    requires 0 < k < |path|
    ensures Child(t.child, path[0]).None? ==> !Counts(t, path, wild, k)
    ensures Child(t.child, path[0]).Some? ==>
      (Counts(t, path, wild, k) <==>
        Counts(Child(t.child, path[0]).value, path[1..], Carried(t, path, wild, 0), k - 1))
  {
    OffersBelow(t, path, k);
    PassedBelow(t, path, k);
    if Child(t.child, path[0]).Some? { CarriedBelow(t, path, wild, k); }
  }

  /** What a search for an unbound name yields. */
  ghost predicate Decided(t: Tree, path: Path, wild: Option<Value>, r: Option<Value>)
    requires path != []
  {
    && (forall k: nat :: Wins(t, path, wild, k) ==> r == Lookup(t, Starred(path, k)))
    && ((forall k: nat :: !Counts(t, path, wild, k)) ==> r == if Passed(t, path, 0) then None else wild)
  }

  /** The deepest wildcard that counts is the answer, and if there is none, what was carried so far. */
  lemma {:induction false} DeepestWins(t: Tree, path: Path, wild: Option<Value>)
    requires path != [] && Sound(t) && Lookup(t, path).None?
    ensures Decided(t, path, wild, Get(t, path, wild))
    decreases |path|
  {
    GetIsLevel(t, path, wild);
    var i := Find(t.child, path[0]);
    if i < |t.child| && |path| > 1 {
      var passed := Carried(t, path, wild, 0);
      DeepestWins(t.child[i], path[1..], passed);
      var ret := Get(t.child[i], path[1..], passed);
      DecidedAbove(t, path, wild, t.child[i], passed, ret);
      DecidedHere(t, path, wild, passed, ret);
    } else {
      if i < |t.child| { assert NodeAt(t, path) == NodeAt(t.child[i], []); }
      OffersHere(t, path);
      PassedHere(t, path);
      NoneBelow(t, path, wild);
      assert Counts(t, path, wild, 0) || !Counts(t, path, wild, 0);
    }
  }

  /** What one node makes of the answer ret from below. */
  lemma DecidedHere(t: Tree, path: Path, wild: Option<Value>, passed: Option<Value>, ret: Option<Value>)
    requires |path| > 1 && Sound(t) && Find(t.child, path[0]) < |t.child| && passed == Carried(t, path, wild, 0)
    requires ret == Get(t.child[Find(t.child, path[0])], path[1..], passed)
    requires forall k: nat :: k > 0 && Wins(t, path, wild, k) ==> ret == Lookup(t, Starred(path, k))
    requires (forall k: nat :: k > 0 ==> !Counts(t, path, wild, k)) ==> ret.None? || ret == passed
    ensures Decided(t, path, wild, Level(t.child, path, wild))
  {
    OffersHere(t, path);
    PassedHere(t, path);
    var r := Level(t.child, path, wild);
    forall k: nat | Wins(t, path, wild, k)
      ensures r == Lookup(t, Starred(path, k))
    {
      if k == 0 { NoneDeeper(t, path, wild); }
    }
    assert Counts(t, path, wild, 0) || !Counts(t, path, wild, 0);
  }

  lemma NoneDeeper(t: Tree, path: Path, wild: Option<Value>)
    requires Wins(t, path, wild, 0)
    ensures forall k: nat :: k > 0 ==> !Counts(t, path, wild, k)
  {
  }

  lemma NoneBelow(t: Tree, path: Path, wild: Option<Value>)
    requires path != [] && (|path| == 1 || Child(t.child, path[0]).None?)
    ensures forall k: nat :: Counts(t, path, wild, k) ==> k == 0
  {
    forall k: nat | 0 < k < |path|
      ensures !Counts(t, path, wild, k)
    {
      CountsBelow(t, path, wild, k);
    }
  }

  lemma DecidedAbove(t: Tree, path: Path, wild: Option<Value>, c: Tree, passed: Option<Value>, ret: Option<Value>)
    requires |path| > 1 && Child(t.child, path[0]) == Some(c) && passed == Carried(t, path, wild, 0)
    requires Decided(c, path[1..], passed, ret)
    ensures forall k: nat :: k > 0 && Wins(t, path, wild, k) ==> ret == Lookup(t, Starred(path, k))
    ensures (forall k: nat :: k > 0 ==> !Counts(t, path, wild, k)) ==>
      ret.None? || ret == passed
  {
    forall k: nat | k > 0 && Wins(t, path, wild, k)
      ensures ret == Lookup(t, Starred(path, k))
    {
      WinsBelow(t, path, wild, c, passed, k);
      OffersBelow(t, path, k);
    }
    if forall k: nat :: k > 0 ==> !Counts(t, path, wild, k) {
      forall k: nat
        ensures !Counts(c, path[1..], passed, k)
      {
        if k < |path| - 1 { CountsBelow(t, path, wild, k + 1); }
      }
    }
  }

  lemma WinsBelow(t: Tree, path: Path, wild: Option<Value>, c: Tree, passed: Option<Value>, k: nat)
    requires |path| > 1 && Child(t.child, path[0]) == Some(c) && passed == Carried(t, path, wild, 0)
    requires k > 0 && Wins(t, path, wild, k)
    ensures Wins(c, path[1..], passed, k - 1)
  {
    CountsBelow(t, path, wild, k);
    forall j | k - 1 < j < |path[1..]|
      ensures !Counts(c, path[1..], passed, j)
    {
      CountsBelow(t, path, wild, j + 1);
    }
  }

  /** Of all the wildcards that count for an unbound name the deepest one answers; without one the search
      finds nothing. */
  lemma WildcardOrder(t: Tree, path: Path)
    requires path != [] && Sound(t) && Lookup(t, path).None?
    ensures forall k: nat :: Wins(t, path, None, k) ==> Get(t, path, None) == Lookup(t, Starred(path, k))
    ensures (forall k: nat :: !Counts(t, path, None, k)) ==> Get(t, path, None) == None
  {
    DeepestWins(t, path, None);
  }
}
