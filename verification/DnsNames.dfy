/** Names in DNS messages (sections 3.1 and 4.1.4 of RFC 1035) and how they are parsed. */
module DnsNames {
  import opened Wrappers
  import opened Bytes

  type Label = seq<Byte>

  /** A name ends with the root, or with a pointer, whose two high bits are set. */
  datatype Ending = Root | Pointer(hi: Byte, lo: Byte)

  datatype Name = Name(labels: seq<Label>, ending: Ending)

  const ROOM: nat := 256   // of the buffer that the text is written to
  const DOT: Byte := 46
  const TAG: nat := 192    // the two high bits of a byte

  predicate WellFormed(n: Name) {
    && (forall l :: l in n.labels ==> 0 < |l| < TAG)
    && (n.ending.Pointer? ==> n.ending.hi >= TAG)
  }

  /** The length bytes and the labels. */
  function WireSize(labels: seq<Label>): nat {
    if labels == [] then 0 else 1 + |labels[0]| + WireSize(labels[1..])
  }

  function EncodeEnding(e: Ending): seq<Byte> {
    match e
    case Root => [0]
    case Pointer(hi, lo) => [hi, lo]
  }

  function EncodeLabels(labels: seq<Label>): seq<Byte>
    requires forall l :: l in labels ==> |l| < TAG
  {
    if labels == [] then [] else [|labels[0]|] + labels[0] + EncodeLabels(labels[1..])
  }

  function EncodeName(n: Name): seq<Byte>
    requires WellFormed(n)
  {
    EncodeLabels(n.labels) + EncodeEnding(n.ending)
  }

  // ----- the text of a name

  function Dotted(out: seq<Byte>): seq<Byte> {
    if out == [] then out else out + [DOT]
  }

  /** The labels behind what there is, with dots between. */
  function Text(out: seq<Byte>, labels: seq<Label>): seq<Byte>
    decreases |labels|
  {
    if labels == [] then out else Text(Dotted(out) + labels[0], labels[1..])
  }

  function Join(labels: seq<Label>): seq<Byte> {
    if labels == [] then [] else if |labels| == 1 then labels[0] else labels[0] + [DOT] + Join(labels[1..])
  }

  /** The labels with dots between. */
  lemma {:induction false} TextIsJoin(out: seq<Byte>, labels: seq<Label>)
    requires labels != [] && forall l :: l in labels ==> l != []
    ensures Text(out, labels) == Dotted(out) + Join(labels)
    decreases |labels|
  {
    assert labels[0] in labels && forall l :: l in labels[1..] ==> l in labels;
    assert labels == [labels[0]] + labels[1..];
    if |labels| > 1 {
      TextIsJoin(Dotted(out) + labels[0], labels[1..]);
      TextStep(out, labels[0], labels[1..], Dotted(out) + labels[0]);
    } else {
      assert labels[1..] == [];
    }
  }

  lemma TextStep(out: seq<Byte>, l: Label, rest: seq<Label>, out': seq<Byte>)
    requires l != [] && rest != [] && out' == Dotted(out) + l && Text(out', rest) == Dotted(out') + Join(rest)
    ensures Text(out, [l] + rest) == Dotted(out) + Join([l] + rest)
  {
    assert ([l] + rest)[1..] == rest;
  }

  function Lower(b: Byte): Byte {
    if 65 <= b <= 90 then b + 32 else b
  }

  function Lowered(s: seq<Byte>): (r: seq<Byte>)
    ensures |r| == |s|
  {
    seq(|s|, i requires 0 <= i < |s| => Lower(s[i]))
  }

  // ----- what lowering does

  predicate Capital(b: Byte) {
    65 <= b <= 90
  }

  /** The text has the bytes of raw, with each capital letter replaced by the small one. */
  ghost predicate LowerCase(text: seq<Byte>, raw: seq<Byte>) {
    && |text| == |raw|
    && (forall i :: 0 <= i < |text| ==> !Capital(text[i]))
    && (forall i :: 0 <= i < |raw| ==> text[i] as nat == raw[i] + if Capital(raw[i]) then 32 else 0)
  }

  lemma LoweredMeans(text: seq<Byte>, raw: seq<Byte>)
    ensures text == Lowered(raw) <==> LowerCase(text, raw)
  {
    if LowerCase(text, raw) {
      assert forall i :: 0 <= i < |raw| ==> text[i] == Lowered(raw)[i];
    }
  }

  /** The same byte, or the same letter, one capital and one not. */
  predicate SameLetter(a: Byte, b: Byte) {
    a == b || (Capital(a) && b == a + 32) || (Capital(b) && a == b + 32)
  }

  ghost predicate SameSpelling(a: seq<Byte>, b: seq<Byte>) {
    |a| == |b| && forall i :: 0 <= i < |a| ==> SameLetter(a[i], b[i])
  }

  lemma SameLowered(a: seq<Byte>, b: seq<Byte>)
    requires SameSpelling(a, b)
    ensures Lowered(a) == Lowered(b)
  {
  }

  lemma {:induction false} SameJoined(a: seq<Label>, b: seq<Label>)
    requires |a| == |b| && forall i :: 0 <= i < |a| ==> SameSpelling(a[i], b[i])
    ensures SameSpelling(Join(a), Join(b))
  {
    if |a| > 1 {
      SameJoined(a[1..], b[1..]);
      SameAppended(a[0] + [DOT], b[0] + [DOT], Join(a[1..]), Join(b[1..]));
    }
  }

  lemma SameAppended(a: seq<Byte>, b: seq<Byte>, a': seq<Byte>, b': seq<Byte>)
    requires SameSpelling(a, b) && SameSpelling(a', b')
    ensures SameSpelling(a + a', b + b')
  {
  }

  /** Names whose labels differ only in the case of letters have the same text. */
  lemma CaseIgnored(a: seq<Label>, b: seq<Label>)
    requires |a| == |b| && forall i :: 0 <= i < |a| ==> SameSpelling(a[i], b[i])
    ensures Lowered(Join(a)) == Lowered(Join(b))
  {
    SameJoined(a, b);
    SameLowered(Join(a), Join(b));
  }

  // ----- parsing

  /** The bytes e stand in the message from position p on. */
  predicate At(msg: seq<Byte>, p: nat, e: seq<Byte>)
    decreases |e|
  {
    if e == [] then p <= |msg| else p < |msg| && msg[p] == e[0] && At(msg, p + 1, e[1..])
  }

  lemma {:induction false} AtSlice(msg: seq<Byte>, p: nat, e: seq<Byte>)
    ensures At(msg, p, e) <==> p + |e| <= |msg| && msg[p..p + |e|] == e
    decreases |e|
  {
    if e != [] {
      AtSlice(msg, p + 1, e[1..]);
      if p + |e| <= |msg| {
        assert msg[p..p + |e|] == [msg[p]] + msg[p + 1..p + |e|];
        assert e == [e[0]] + e[1..];
      }
    }
  }

  lemma {:induction false} AtSplit(msg: seq<Byte>, p: nat, a: seq<Byte>, b: seq<Byte>)
    ensures At(msg, p, a + b) <==> At(msg, p, a) && At(msg, p + |a|, b)
    decreases |a|
  {
    if a == [] {
      assert a + b == b;
      AtSlice(msg, p, b);
    } else {
      assert (a + b)[1..] == a[1..] + b;
      AtSplit(msg, p + 1, a[1..], b);
    }
  }

  /** The loop of parse_name with the cursor at p: the text, before it is lowered, and the position
      behind the name. */
  function Parse(msg: seq<Byte>, p: nat, out: seq<Byte>): (r: Option<(seq<Byte>, nat)>)
    ensures r.Some? ==> p < r.value.1 <= |msg|
    decreases |msg| - p
  {
    if p >= |msg| then None
    else if msg[p] == 0 then Some((out, p + 1))
    else if msg[p] >= TAG then (if p + 2 > |msg| then None else Some((out, p + 2)))
    else if p + 1 + msg[p] > |msg| || |out| + msg[p] + 2 > ROOM then None
    else Parse(msg, p + 1 + msg[p], Dotted(out) + msg[p + 1..p + 1 + msg[p]])
  }

  /** What there is room for: the labels, each with a dot or the final 0, behind what there is. */
  predicate Fits(out: seq<Byte>, labels: seq<Label>)
    decreases |labels|
  {
    labels == [] || (|out| + |labels[0]| + 2 <= ROOM && Fits(Dotted(out) + labels[0], labels[1..]))
  }

  /** A well-formed name is accepted exactly if its text fits; then the text is that of its labels, and
      the cursor moves by its wire length, whatever follows it. */
  lemma {:induction false} ParseOfEncode(msg: seq<Byte>, p: nat, n: Name, out: seq<Byte>, end: nat)
    requires WellFormed(n) && At(msg, p, EncodeName(n)) && end == p + |EncodeName(n)|
    ensures Parse(msg, p, out) == Outcome(out, n.labels, end)
    decreases |n.labels|, 1
  {
    if n.labels == [] {
      EndingAt(msg, p, n.ending);
    } else {
      var l, m := n.labels[0], Name(n.labels[1..], n.ending);
      assert l in n.labels;
      FirstLabelAt(msg, p, n, l, m);
      ParseLabels(msg, p, out, n.labels, l, m, p + 1 + |l|, Dotted(out) + l, end);
    }
  }

  lemma {:induction false} ParseLabels(msg: seq<Byte>, p: nat, out: seq<Byte>, labels: seq<Label>, l: Label,
        m: Name, q: nat, out': seq<Byte>, end: nat)
    requires WellFormed(m) && At(msg, q, EncodeName(m)) && end == q + |EncodeName(m)|
    requires LabelAt(msg, p, l) && 0 < |l| < TAG && q == p + 1 + |l| && out' == Dotted(out) + l
    requires labels != [] && labels[0] == l && labels[1..] == m.labels
    ensures Parse(msg, p, out) == Outcome(out, labels, end)
    decreases |labels|, 0
  {
    ParseOfEncode(msg, q, m, out', end);
    ParseLabel(msg, p, out, labels, l, m.labels, q, out', end);
  }

  function Outcome(out: seq<Byte>, labels: seq<Label>, end: nat): Option<(seq<Byte>, nat)> {
    if Fits(out, labels) then Some((Text(out, labels), end)) else None
  }

  lemma ParseLabel(msg: seq<Byte>, p: nat, out: seq<Byte>, labels: seq<Label>, l: Label, rest: seq<Label>, q: nat,
        out': seq<Byte>, end: nat)
    requires LabelAt(msg, p, l) && 0 < |l| < TAG && q == p + 1 + |l| && out' == Dotted(out) + l
    requires labels != [] && labels[0] == l && labels[1..] == rest && Parse(msg, q, out') == Outcome(out', rest, end)
    ensures Parse(msg, p, out) == Outcome(out, labels, end)
  {
    ParseStep(msg, p, out, |l|, q, l, out');
    OutcomeStep(out, labels, l, rest, out', end);
  }

  lemma OutcomeStep(out: seq<Byte>, labels: seq<Label>, l: Label, rest: seq<Label>, out': seq<Byte>, q: nat)
    requires labels != [] && labels[0] == l && labels[1..] == rest && out' == Dotted(out) + l
    ensures Outcome(out, labels, q) == if |out| + |l| + 2 <= ROOM then Outcome(out', rest, q) else None
  {
  }

  /** One turn of the loop, at a label l. */
  lemma ParseStep(msg: seq<Byte>, p: nat, out: seq<Byte>, len: nat, q: nat, l: Label, out': seq<Byte>)
    requires p + 1 + len == q <= |msg| && msg[p] == len && 0 < len < TAG && l == msg[p + 1..q]
    requires out' == Dotted(out) + l
    ensures Parse(msg, p, out) == if |out| + len + 2 <= ROOM then Parse(msg, q, out') else None
  {
  }

  lemma EndingAt(msg: seq<Byte>, p: nat, e: Ending)
    requires At(msg, p, [] + EncodeEnding(e))
    ensures p + |EncodeEnding(e)| <= |msg| && msg[p] == EncodeEnding(e)[0]
  {
    AtSlice(msg, p, [] + EncodeEnding(e));
  }

  /** A name with a first label l stands at p exactly if l stands there and the rest of the name, m,
      behind it. */
  lemma FirstLabelAt(msg: seq<Byte>, p: nat, n: Name, l: Label, m: Name)
    requires WellFormed(n) && n.labels != [] && n.labels[0] == l && m == Name(n.labels[1..], n.ending)
    ensures WellFormed(m) && |EncodeName(n)| == 1 + |l| + |EncodeName(m)|
    ensures At(msg, p, EncodeName(n)) <==> LabelAt(msg, p, l) && At(msg, p + 1 + |l|, EncodeName(m))
  {
    assert l in n.labels;
    assert EncodeName(n) == ([|l|] + l) + EncodeName(m);
    AtSplit(msg, p, [|l|] + l, EncodeName(m));
    AtSplit(msg, p, [|l|], l);
    AtSlice(msg, p, [|l|]);
    AtSlice(msg, p + 1, l);
    assert p < |msg| ==> msg[p..p + 1] == [msg[p]];
  }

  predicate LabelAt(msg: seq<Byte>, p: nat, l: Label) {
    p + 1 + |l| <= |msg| && msg[p] == |l| && msg[p + 1..p + 1 + |l|] == l
  }

  /** Whatever is accepted is a well-formed name that fits. */
  lemma {:induction false} EncodeOfParse(msg: seq<Byte>, p: nat, out: seq<Byte>) returns (n: Name)
    requires Parse(msg, p, out).Some?
    ensures WellFormed(n) && Fits(out, n.labels) && At(msg, p, EncodeName(n))
    decreases |msg| - p, 1
  {
    AcceptedStep(msg, p, out);
    var len: nat := msg[p];
    if len == 0 {
      n := Name([], Root);
    } else if len >= TAG {
      n := Name([], Pointer(msg[p], msg[p + 1]));
    } else {
      var l := msg[p + 1..p + 1 + len];
      n := LabelOfParse(msg, p, out, l, p + 1 + len, Dotted(out) + l);
    }
  }

  lemma {:induction false} LabelOfParse(msg: seq<Byte>, p: nat, out: seq<Byte>, l: Label, q: nat, out': seq<Byte>)
      returns (n: Name)
    requires 0 < |l| < TAG && LabelAt(msg, p, l) && q == p + 1 + |l| && out' == Dotted(out) + l
    requires |out| + |l| + 2 <= ROOM && Parse(msg, q, out').Some?
    ensures WellFormed(n) && Fits(out, n.labels) && At(msg, p, EncodeName(n))
    decreases |msg| - p, 0
  {
    var m := EncodeOfParse(msg, q, out');
    n := ConsName(msg, p, out, l, m);
  }

  /** What stands at the cursor when the name is accepted. */
  lemma AcceptedStep(msg: seq<Byte>, p: nat, out: seq<Byte>)
    requires Parse(msg, p, out).Some?
    ensures p < |msg|
    ensures msg[p] >= TAG ==> p + 2 <= |msg|
    ensures 0 < msg[p] < TAG ==>
      && p + 1 + msg[p] <= |msg| && |out| + msg[p] + 2 <= ROOM
      && Parse(msg, p + 1 + msg[p], Dotted(out) + msg[p + 1..p + 1 + msg[p]]).Some?
  {
  }

  lemma ConsName(msg: seq<Byte>, p: nat, out: seq<Byte>, l: Label, m: Name) returns (n: Name)
    requires WellFormed(m) && 0 < |l| < TAG && LabelAt(msg, p, l) && At(msg, p + 1 + |l|, EncodeName(m))
    requires |out| + |l| + 2 <= ROOM && Fits(Dotted(out) + l, m.labels)
    ensures WellFormed(n) && Fits(out, n.labels) && At(msg, p, EncodeName(n))
  {
    n := Name([l] + m.labels, m.ending);
    assert n.labels[1..] == m.labels;
    FirstLabelAt(msg, p, n, l, m);
  }

  lemma {:induction false} FitsIff(out: seq<Byte>, labels: seq<Label>)
    requires out != [] && forall l :: l in labels ==> 0 < |l| < TAG
    ensures Fits(out, labels) <==> labels == [] || |out| + 1 + WireSize(labels) <= ROOM
    decreases |labels|
  {
    if labels != [] {
      assert labels[0] in labels;
      FitsIff(Dotted(out) + labels[0], labels[1..]);
      WireSizePositive(labels[1..]);
    }
  }

  lemma WireSizePositive(labels: seq<Label>)
    ensures labels == [] <==> WireSize(labels) == 0
  {
  }

  /** There is room exactly if the labels take at most 256 bytes on the wire. */
  lemma NameFits(labels: seq<Label>)
    requires forall l :: l in labels ==> 0 < |l| < TAG
    ensures Fits([], labels) <==> WireSize(labels) <= 256
  {
    if labels != [] {
      assert labels[0] in labels && Dotted([]) + labels[0] == labels[0];
      FitsIff(labels[0], labels[1..]);
      WireSizePositive(labels[1..]);
    }
  }

  /** Section 2.3.4 of RFC 1035. */
  predicate Legal(n: Name) {
    WellFormed(n) && (forall l :: l in n.labels ==> |l| <= 63) && |EncodeName(n)| <= 255
  }

  lemma {:induction false} EncodeSize(labels: seq<Label>)
    requires forall l :: l in labels ==> |l| < TAG
    ensures |EncodeLabels(labels)| == WireSize(labels)
  {
    if labels != [] { EncodeSize(labels[1..]); }
  }

  /** Every legal name is accepted, compressed or not. */
  lemma LegalIsAccepted(msg: seq<Byte>, p: nat, n: Name)
    requires Legal(n) && At(msg, p, EncodeName(n))
    ensures Parse(msg, p, []) == Some((Text([], n.labels), p + |EncodeName(n)|))
  {
    EncodeSize(n.labels);
    NameFits(n.labels);
    ParseOfEncode(msg, p, n, [], p + |EncodeName(n)|);
  }
}
