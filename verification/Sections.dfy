/** Lists of entries in a message: how they are encoded one behind the other, and how they are parsed,
    whatever the entries are. */
module Sections {
  import opened Wrappers
  import opened Bytes
  import opened DnsNames

  /** Parses the entry at a position; yields it with the position behind it. */
  type Parser<!V> = nat -> Option<(V, nat)>

  function EncodeList<T>(encode: T -> seq<Byte>, xs: seq<T>): seq<Byte> {
    if xs == [] then [] else encode(xs[0]) + EncodeList(encode, xs[1..])
  }

  /** The position behind n entries. */
  function Skip<V>(parse: Parser<V>, p: nat, n: nat): Option<nat>
    decreases n
  {
    if n == 0 then Some(p) else
    match parse(p)
    case None => None
    case Some((_, q)) => Skip(parse, q, n - 1)
  }

  function Nth<V>(parse: Parser<V>, p: nat, k: nat): Option<V>
    decreases k
  {
    match parse(p)
    case None => None
    case Some((x, q)) => if k == 0 then Some(x) else Nth(parse, q, k - 1)
  }

  /** The k-th entry from p on is the target.  (Stated of every j that is k, to keep the parsing folded.) */
  ghost predicate NthLeads<V(!new)>(parse: Parser<V>, p: nat, k: nat, target: Option<V>) {
    forall j: nat :: j == k ==> Nth(parse, p, j) == target
  }

  lemma NthStep<V(!new)>(parse: Parser<V>, p: nat, k: nat, target: Option<V>)
    requires NthLeads(parse, p, k, target)
    ensures match parse(p)
            case None => target == None
            case Some((x, q)) => if k == 0 then target == Some(x) else NthLeads(parse, q, k - 1, target)
  {
    assert Nth(parse, p, k) == target;
  }

  /** The parser finds an encoded entry, wherever it stands. */
  ghost predicate Finds<T, V>(msg: seq<Byte>, encode: T -> seq<Byte>, parse: Parser<V>, view: T -> V, x: T) {
    forall p: nat :: At(msg, p, encode(x)) ==> parse(p) == Some((view(x), p + |encode(x)|))
  }

  lemma {:induction false} SkipOfEncode<T, V>(msg: seq<Byte>, encode: T -> seq<Byte>, parse: Parser<V>,
        view: T -> V, p: nat, xs: seq<T>)
    requires At(msg, p, EncodeList(encode, xs)) && forall x :: x in xs ==> Finds(msg, encode, parse, view, x)
    ensures Skip(parse, p, |xs|) == Some(p + |EncodeList(encode, xs)|)
    decreases |xs|
  {
    if xs != [] {
      assert xs[0] in xs;
      AtSplit(msg, p, encode(xs[0]), EncodeList(encode, xs[1..]));
      SkipOfEncode(msg, encode, parse, view, p + |encode(xs[0])|, xs[1..]);
    }
  }

  lemma {:induction false} NthOfEncode<T, V>(msg: seq<Byte>, encode: T -> seq<Byte>, parse: Parser<V>,
        view: T -> V, p: nat, xs: seq<T>, k: nat)
    requires k < |xs| && At(msg, p, EncodeList(encode, xs))
    requires forall x :: x in xs ==> Finds(msg, encode, parse, view, x)
    ensures Nth(parse, p, k) == Some(view(xs[k]))
    decreases k
  {
    assert xs[0] in xs;
    AtSplit(msg, p, encode(xs[0]), EncodeList(encode, xs[1..]));
    if k > 0 { NthOfEncode(msg, encode, parse, view, p + |encode(xs[0])|, xs[1..], k - 1); }
  }

  /** Whatever the parser accepts is an encoded entry. */
  ghost predicate Sound<T(!new), V>(msg: seq<Byte>, encode: T -> seq<Byte>, parse: Parser<V>, view: T -> V) {
    forall p: nat :: parse(p).Some? ==> exists x :: IsEntry(msg, encode, parse, view, p, x)
  }

  ghost predicate IsEntry<T, V>(msg: seq<Byte>, encode: T -> seq<Byte>, parse: Parser<V>, view: T -> V, p: nat, x: T) {
    At(msg, p, encode(x)) && parse(p) == Some((view(x), p + |encode(x)|))
  }

  lemma ConsList<T>(msg: seq<Byte>, encode: T -> seq<Byte>, p: nat, x: T, more: seq<T>, xs: seq<T>)
    requires xs == [x] + more && At(msg, p, encode(x)) && At(msg, p + |encode(x)|, EncodeList(encode, more))
    ensures At(msg, p, EncodeList(encode, xs)) && |EncodeList(encode, xs)| == |encode(x)| + |EncodeList(encode, more)|
  {
    assert xs[1..] == more;
    AtSplit(msg, p, encode(x), EncodeList(encode, more));
  }

  lemma {:induction false} EncodeOfSkip<T(!new), V>(msg: seq<Byte>, encode: T -> seq<Byte>, parse: Parser<V>,
        view: T -> V, p: nat, n: nat)
    returns (xs: seq<T>)
    requires p <= |msg| && Sound(msg, encode, parse, view) && Skip(parse, p, n).Some?
    ensures |xs| == n && At(msg, p, EncodeList(encode, xs)) && Skip(parse, p, n) == Some(p + |EncodeList(encode, xs)|)
    decreases n
  {
    if n == 0 {
      xs := [];
    } else {
      var x :| IsEntry(msg, encode, parse, view, p, x);
      AtSlice(msg, p, encode(x));
      var more := EncodeOfSkip(msg, encode, parse, view, p + |encode(x)|, n - 1);
      xs := [x] + more;
      ConsList(msg, encode, p, x, more, xs);
    }
  }

  lemma {:induction false} EncodeOfNth<T(!new), V>(msg: seq<Byte>, encode: T -> seq<Byte>, parse: Parser<V>,
        view: T -> V, p: nat, k: nat)
    returns (xs: seq<T>)
    requires Sound(msg, encode, parse, view) && Nth(parse, p, k).Some?
    ensures |xs| == k + 1 && At(msg, p, EncodeList(encode, xs)) && Nth(parse, p, k) == Some(view(xs[k]))
    decreases k
  {
    var x :| IsEntry(msg, encode, parse, view, p, x);
    var more: seq<T> := [];
    if k == 0 {
      AtSlice(msg, p, encode(x));
    } else {
      more := EncodeOfNth(msg, encode, parse, view, p + |encode(x)|, k - 1);
    }
    xs := [x] + more;
    ConsList(msg, encode, p, x, more, xs);
  }

  /** Two sections, one behind the other: n entries skipped and the k-th behind them found. */
  lemma EncodeOfBoth<T(!new), V, U(!new), W>(msg: seq<Byte>, encode: T -> seq<Byte>, parse: Parser<V>, view: T -> V,
      encode': U -> seq<Byte>, parse': Parser<W>, view': U -> W, p: nat, n: nat, middle: nat, k: nat)
    returns (xs: seq<T>, ys: seq<U>)
    requires p <= |msg| && Sound(msg, encode, parse, view) && Sound(msg, encode', parse', view')
    requires Skip(parse, p, n) == Some(middle) && Nth(parse', middle, k).Some?
    ensures |xs| == n && At(msg, p, EncodeList(encode, xs)) && middle == p + |EncodeList(encode, xs)|
    ensures |ys| == k + 1 && At(msg, middle, EncodeList(encode', ys)) && Nth(parse', middle, k) == Some(view'(ys[k]))
  {
    xs := EncodeOfSkip(msg, encode, parse, view, p, n);
    ys := EncodeOfNth(msg, encode', parse', view', middle, k);
  }
}
