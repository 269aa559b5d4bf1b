/** Compressed names (section 4.1.4 of RFC 1035): what a name stands for, and what its text says of it. */
module DnsCompression {
  import opened Wrappers
  import opened Bytes
  import opened DnsNames
  import opened Dns

  /** The name at p, whatever its length. */
  function Wire(msg: seq<Byte>, p: nat): (n: Option<Name>)
    ensures n.Some? ==> WellFormed(n.value)
    decreases |msg| - p
  {
    if p >= |msg| then None
    else if msg[p] == 0 then Some(Name([], Root))
    else if msg[p] >= TAG then (if p + 2 > |msg| then None else Some(Name([], Pointer(msg[p], msg[p + 1]))))
    else if p + 1 + msg[p] > |msg| then None
    else match Wire(msg, p + 1 + msg[p])
         case None => None
         case Some(n) => Some(Name([msg[p + 1..p + 1 + msg[p]]] + n.labels, n.ending))
  }

  /** The offset that a pointer gives. */
  function Target(e: Ending): nat
    requires e.Pointer? && e.hi >= TAG
  {
    (e.hi - TAG) * 256 + e.lo
  }

  /** All the labels of the name at p.  A pointer leads to a prior occurrence. */
  function FullName(msg: seq<Byte>, p: nat): Option<seq<Label>>
    decreases p
  {
    match Wire(msg, p)
    case None => None
    case Some(n) =>
      if n.ending.Root? then Some(n.labels)
      else if Target(n.ending) >= p then None
      else match FullName(msg, Target(n.ending))
           case None => None
           case Some(more) => Some(n.labels + more)
  }

  /** The name ends where its labels end: it has no pointer, or one that leads to the root. */
  predicate Complete(msg: seq<Byte>, n: WireName) {
    n.ending.Root? || FullName(msg, Target(n.ending)) == Some([])
  }

  lemma {:induction false} WireOfEncode(msg: seq<Byte>, p: nat, n: WireName)
    requires At(msg, p, EncodeName(n))
    ensures Wire(msg, p) == Some(n)
    decreases |n.labels|
  {
    if n.labels == [] {
      AtSlice(msg, p, [] + EncodeEnding(n.ending));
    } else {
      var l, m := n.labels[0], Name(n.labels[1..], n.ending);
      assert l in n.labels;
      FirstLabelAt(msg, p, n, l, m);
      WireOfEncode(msg, p + 1 + |l|, m);
      WireStep(msg, p, l, m);
      assert n.labels == [l] + m.labels;
    }
  }

  lemma WireStep(msg: seq<Byte>, p: nat, l: Label, m: Name)
    requires LabelAt(msg, p, l) && 0 < |l| < TAG && Wire(msg, p + 1 + |l|) == Some(m)
    ensures Wire(msg, p) == Some(Name([l] + m.labels, m.ending))
  {
  }

  lemma {:induction false} JoinLonger(a: seq<Label>, b: seq<Label>)
    requires b != [] && forall l :: l in b ==> l != []
    ensures |Join(a + b)| > |Join(a)|
  {
    if a == [] {
      assert a + b == b && b[0] in b;
    } else {
      assert (a + b)[1..] == a[1..] + b && (a + b)[0] == a[0];
      if |a| > 1 { JoinLonger(a[1..], b); }
    }
  }

  lemma {:induction false} FullLabels(msg: seq<Byte>, p: nat)
    requires FullName(msg, p).Some?
    ensures forall l :: l in FullName(msg, p).value ==> l != []
    decreases p
  {
    var n := Wire(msg, p).value;
    if n.ending.Pointer? { FullLabels(msg, Target(n.ending)); }
  }

  /** The text of an accepted name is that of the whole name exactly if the name has no pointer, or
      one that leads to the root: otherwise labels are missing at its end. */
  lemma TextIsWhole(msg: seq<Byte>, p: nat) returns (n: WireName)
    requires ParseName(msg, p).Some? && FullName(msg, p).Some?
    ensures Wire(msg, p) == Some(n) && ParseName(msg, p).value.0 == NameText(n) && n.labels <= FullName(msg, p).value
    ensures ParseName(msg, p).value.0 == Lowered(Join(FullName(msg, p).value)) <==> Complete(msg, n)
  {
    n := NameOfParse(msg, p);
    WireOfEncode(msg, p, n);
    if n.ending.Pointer? {
      var more := FullName(msg, Target(n.ending)).value;
      if more == [] {
        assert n.labels + more == n.labels;
      } else {
        FullLabels(msg, Target(n.ending));
        JoinLonger(n.labels, more);
      }
    }
  }

  /** A compressed name that loses a label: the name at 3 is b.a, and its text is b. */
  lemma CompressedLosesLabels()
    ensures var msg: seq<Byte> := [1, 97, 0, 1, 98, 192, 0];
      FullName(msg, 3) == Some([[98], [97]]) && ParseName(msg, 3) == Some(([98], 7))
  {
    var msg: seq<Byte> := [1, 97, 0, 1, 98, 192, 0];
    assert Wire(msg, 2) == Some(Name([], Root));
    var a: Label, b: Label, none: seq<Label> := [97], [98], [];
    assert msg[1..2] == a && msg[4..5] == b && [a] + none == [a] && [b] + none == [b];
    assert Wire(msg, 0) == Some(Name([[97]], Root));
    assert FullName(msg, 0) == Some([[97]]);
    assert Wire(msg, 5) == Some(Name([], Pointer(192, 0)));
    assert Wire(msg, 3) == Some(Name([[98]], Pointer(192, 0)));
    assert [[98]] + [[97]] == [[98], [97]];
    var out: seq<Byte> := Dotted([]) + msg[4..5];
    assert out == [98];
    assert Parse(msg, 5, out) == Some((out, 7));
    assert Parse(msg, 3, []) == Some(([98], 7));
    assert Lowered([98]) == [98];
  }
}
