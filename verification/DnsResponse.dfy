/** Getting at the questions and answers of a message, and at what a response says. */
module DnsResponse {
  import opened Wrappers
  import opened Sequences
  import opened Bytes
  import opened Sections
  import opened Dns
  import opened DnsParser
  import opened DnsAddress

  /** dns_get_question */
  method FetchQuestion(msg: seq<Byte>, index: nat, q: QuestionOut) returns (ret: int)
    requires q.Valid()
    modifies q, q.name
    ensures q.Valid() && (ret == 0 || ret == -1) && (ret == 0 <==> GetQuestion(msg, index).Some?)
    ensures ret == 0 ==> q.Terminated() && q.View() == GetQuestion(msg, index).value
  {
    if |msg| < HEADER { return -1; }
    var count := Count(msg, 4);
    if index >= count { return -1; }
    var buf := new Cursor(msg, HEADER);
    var left := index;
    ghost var target := Nth(QuestionParser(msg), HEADER, index);
    while true
      invariant buf.Valid() && buf.msg == msg && q.Valid() && fresh(buf)
      invariant NthLeads(QuestionParser(msg), buf.ptr, left, target)
      decreases left
    {
      NthStep(QuestionParser(msg), buf.ptr, left, target);
      ret := buf.ParseQuestion(q);
      if ret < 0 { return -1; }
      if left == 0 { return 0; }
      left := left - 1;
    }
  }

  /** dns_get_answer */
  method FetchAnswer(msg: seq<Byte>, index: nat, a: RecordOut) returns (ret: int)
    requires a.Valid()
    modifies a, a.name
    ensures a.Valid() && (ret == 0 || ret == -1) && (ret == 0 <==> GetAnswer(msg, index).Some?)
    ensures ret == 0 ==> a.Terminated() && a.Within(msg) && a.View(msg) == GetAnswer(msg, index).value
  {
    if |msg| < HEADER { return -1; }
    var questions := Count(msg, 4);
    var answers := Count(msg, 6);
    if index >= answers { return -1; }
    var buf := new Cursor(msg, HEADER);
    ret := SkipAll(buf, questions);
    if ret < 0 { return -1; }
    ret := FetchNth(buf, index, a);
  }

  method FetchNth(buf: Cursor, index: nat, a: RecordOut) returns (ret: int)
    requires buf.Valid() && a.Valid()
    modifies buf, a, a.name
    ensures a.Valid() && (ret == 0 || ret == -1)
    ensures ret == 0 ==> a.Terminated() && a.Within(buf.msg)
    ensures Nth(RecordParser(buf.msg), old(buf.ptr), index) == if ret == 0 then Some(a.View(buf.msg)) else None
  {
    var left := index;
    ghost var target := Nth(RecordParser(buf.msg), buf.ptr, index);
    while true
      invariant buf.Valid() && a.Valid() && NthLeads(RecordParser(buf.msg), buf.ptr, left, target)
      decreases left
    {
      NthStep(RecordParser(buf.msg), buf.ptr, left, target);
      ret := buf.ParseRecord(a);
      if ret < 0 { return -1; }
      if left == 0 { return 0; }
      left := left - 1;
    }
  }

  method SkipAll(buf: Cursor, count: nat) returns (ret: int)
    requires buf.Valid()
    modifies buf
    ensures buf.Valid() && (ret == 0 || ret == -1)
    ensures Skip(QuestionParser(buf.msg), old(buf.ptr), count) == if ret == 0 then Some(buf.ptr) else None
  {
    var foo := new QuestionOut();
    var i: nat := 0;
    ghost var target := Skip(QuestionParser(buf.msg), buf.ptr, count);
    while i < count
      invariant i <= count && buf.Valid() && foo.Valid() && fresh(foo) && fresh(foo.name)
      invariant SkipLeads(buf.msg, buf.ptr, count - i, target)
    {
      SkipStep(buf.msg, buf.ptr, count - i, target);
      ret := buf.ParseQuestion(foo);
      if ret < 0 { return -1; }
      i := i + 1;
    }
    SkipEnds(buf.msg, buf.ptr, target);
    ret := 0;
  }

  /** Skipping n more questions from p leads to the target.  (Stated of every m that is n, to keep the
      skipping folded.) */
  ghost predicate SkipLeads(msg: seq<Byte>, p: nat, n: nat, target: Option<nat>) {
    forall m: nat :: m == n ==> Skip(QuestionParser(msg), p, m) == target
  }

  lemma SkipStep(msg: seq<Byte>, p: nat, n: nat, target: Option<nat>)
    requires n > 0 && SkipLeads(msg, p, n, target)
    ensures match Dns.ParseQuestion(msg, p)
            case None => target == None
            case Some((_, q)) => SkipLeads(msg, q, n - 1, target)
  {
    assert Skip(QuestionParser(msg), p, n) == target;
  }

  lemma SkipEnds(msg: seq<Byte>, p: nat, target: Option<nat>)
    requires SkipLeads(msg, p, 0, target)
    ensures target == Some(p)
  {
    assert Skip(QuestionParser(msg), p, 0) == target;
  }

  /** A 16-bit word of the header. */
  method Count(msg: seq<Byte>, at: nat) returns (w: Word16)
    requires at + 2 <= |msg|
    ensures w == WordAt(msg, at)
  {
    w := 256 * (msg[at] as nat) + msg[at + 1];
  }

  // ----- what a response says

  datatype Info = Info(domain: seq<Byte>, ipv4: seq<string>)

  /** What the C string functions see of some bytes: those before the first 0. */
  function CString(s: seq<Byte>): seq<Byte> {
    if s == [] || s[0] == 0 then [] else [s[0]] + CString(s[1..])
  }

  lemma {:induction false} CStringIs(s: seq<Byte>, n: nat)
    requires n <= |s| && (n < |s| ==> s[n] == 0) && forall i :: 0 <= i < n ==> s[i] != 0
    ensures CString(s) == s[..n]
  {
    if n > 0 { CStringIs(s[1..], n - 1); }
  }

  method StrLen(name: array<Byte>, ghost size: nat) returns (n: nat)
    requires size < name.Length && name[size] == 0
    ensures n <= size && name[..n] == CString(name[..size])
  {
    n := 0;
    while name[n] != 0
      invariant n <= size && forall i :: 0 <= i < n ==> name[i] != 0
      decreases size - n
    {
      n := n + 1;
    }
    CStringIs(name[..size], n);
    assert name[..size][..n] == name[..n];
  }

  predicate ValidResponse(msg: seq<Byte>) {
    |msg| >= HEADER && WordAt(msg, 2) / 0x8000 == 1 && WordAt(msg, 2) % 16 == 0
  }

  /** What a record adds to the addresses: the text of its data, if these are four bytes. */
  function Texts(d: Data): seq<string> {
    if |d| == 4 then [AddressText(d)] else []
  }

  function PrependTo(d: Data, more: Option<seq<string>>): Option<seq<string>> {
    match more
    case None => None
    case Some(ts) => Some(Texts(d) + ts)
  }

  /** The addresses in the answers from the i-th on, if all of these can be parsed. */
  function AddressesFrom(msg: seq<Byte>, i: nat, count: nat): Option<seq<string>>
    decreases count - i
  {
    if i >= count then Some([]) else
    match GetAnswer(msg, i)
    case None => None
    case Some(a) => PrependTo(a.data, AddressesFrom(msg, i + 1, count))
  }

  function Response(msg: seq<Byte>): Option<Info> {
    if !ValidResponse(msg) then None else
    match GetQuestion(msg, 0)
    case None => None
    case Some(q) =>
      match AddressesFrom(msg, 0, WordAt(msg, 6))
      case None => None
      case Some(ts) => Some(Info(CString(q.name), ts))
  }

  /** dns_resp_parse */
  method ParseResponse(msg: seq<Byte>) returns (r: Option<Info>)
    ensures r == Response(msg)
    ensures r.Some? ==> |msg| >= HEADER && AddressesTold(msg, r.value)
  {
    if |msg| < HEADER { return None; }
    var flags := Count(msg, 2);
    if flags / 0x8000 != 1 || flags % 16 != 0 { return None; }
    var count := Count(msg, 6);
    var q := new QuestionOut();
    var ret := FetchQuestion(msg, 0, q);
    if ret < 0 { return None; }
    var n := StrLen(q.name, q.size);
    var domain := q.name[..n];
    var ok, ipv4 := Collect(msg, count);
    r := if ok then Some(Info(domain, ipv4)) else None;
    if ok { ResponseTold(msg); }
  }

  /** The loop over the answers. */
  method Collect(msg: seq<Byte>, count: nat) returns (ok: bool, ipv4: seq<string>)
    ensures AddressesFrom(msg, 0, count) == if ok then Some(ipv4) else None
  {
    ipv4 := [];
    ghost var target := CollectBegins(msg, count);
    var i: nat := 0;
    while i < count
      invariant i <= count && CollectLeads(msg, ipv4, i, count, target)
    {
      var texts;
      ok, texts := FetchAddress(msg, i);
      CollectStep(msg, ipv4, i, count, target);
      if !ok { return; }
      ipv4 := ipv4 + texts;
      i := i + 1;
    }
    CollectEnds(msg, ipv4, count, target);
    ok := true;
  }

  /** The body of the loop: what the i-th answer adds, if it can be parsed. */
  method FetchAddress(msg: seq<Byte>, i: nat) returns (ok: bool, texts: seq<string>)
    ensures ok <==> GetAnswer(msg, i).Some?
    ensures ok ==> texts == Texts(GetAnswer(msg, i).value.data)
  {
    texts := [];
    var a := new RecordOut();
    var ret := FetchAnswer(msg, i, a);
    ok := ret == 0;
    if ok && a.len == 4 {
      texts := [AddressText(msg[a.data..a.data + a.len])];
    }
  }

  /** The addresses from the i-th answer on, behind those that there are, are the target.  (Stated of
      every n that is i, to keep the parsing folded.) */
  ghost predicate CollectLeads(msg: seq<Byte>, got: seq<string>, i: nat, count: nat, target: Option<seq<string>>) {
    forall n: nat :: n == i ==> Joined(got, AddressesFrom(msg, n, count)) == target
  }

  lemma CollectBegins(msg: seq<Byte>, count: nat) returns (target: Option<seq<string>>)
    ensures target == AddressesFrom(msg, 0, count) && CollectLeads(msg, [], 0, count, target)
  {
    target := AddressesFrom(msg, 0, count);
    if target.Some? { assert [] + target.value == target.value; }
  }

  lemma CollectStep(msg: seq<Byte>, got: seq<string>, i: nat, count: nat, target: Option<seq<string>>)
    requires i < count && CollectLeads(msg, got, i, count, target)
    ensures match GetAnswer(msg, i)
            case None => target == None
            case Some(a) => CollectLeads(msg, got + Texts(a.data), i + 1, count, target)
  {
    var a := GetAnswer(msg, i);
    assert Joined(got, AddressesFrom(msg, i, count)) == target;
    if a.Some? {
      var more := AddressesFrom(msg, i + 1, count);
      if more.Some? { Associative(got, Texts(a.value.data), more.value); }
    }
  }

  lemma CollectEnds(msg: seq<Byte>, got: seq<string>, count: nat, target: Option<seq<string>>)
    requires CollectLeads(msg, got, count, count, target)
    ensures target == Some(got)
  {
    assert Joined(got, AddressesFrom(msg, count, count)) == target;
    assert got + [] == got;
  }

  function Joined(got: seq<string>, more: Option<seq<string>>): Option<seq<string>> {
    match more
    case None => None
    case Some(ts) => Some(got + ts)
  }

  // ----- what the texts are

  /** The numbers in the text are these bytes. */
  predicate Tells(text: string, d: Data) {
    Numbers(text) == d
  }

  /** What a text has to do with its data. */
  type Relation = (string, Data) -> bool

  /** A text that tells the data, if these are four bytes, and none otherwise. */
  ghost predicate TextFor(tells: Relation, ts: seq<string>, d: Data) {
    if |d| == 4 then |ts| == 1 && tells(ts[0], d) else ts == []
  }

  lemma TextsTell(d: Data)
    ensures TextFor(Tells, Texts(d), d)
  {
    if |d| == 4 { AddressRoundTrip(d); }
  }

  /** The texts are those of the data of four bytes, in order: f tells which each one is. */
  ghost predicate ReadBack(tells: Relation, texts: seq<string>, ds: seq<Data>, f: seq<nat>) {
    Picks(ds, f) && AllTell(tells, texts, ds, f)
  }

  ghost predicate AllTell(tells: Relation, texts: seq<string>, ds: seq<Data>, f: seq<nat>) {
    |f| == |texts| && forall k :: 0 <= k < |f| ==> TellsAt(tells, texts[k], ds, f[k])
  }

  ghost predicate TellsAt(tells: Relation, text: string, ds: seq<Data>, i: nat) {
    i < |ds| && tells(text, ds[i])
  }

  /** f picks the data of four bytes, in order. */
  ghost predicate Picks(ds: seq<Data>, f: seq<nat>) {
    && (forall k :: 0 <= k < |f| ==> f[k] < |ds|)
    && (forall j, k :: 0 <= j < k < |f| ==> f[j] < f[k])
    && (forall i: nat :: i in f <==> i < |ds| && |ds[i]| == 4)
  }

  function TextsOf(ds: seq<Data>): seq<string> {
    if ds == [] then [] else Texts(ds[0]) + TextsOf(ds[1..])
  }

  function Shifted(f: seq<nat>): (g: seq<nat>)
    ensures |g| == |f| && forall k :: 0 <= k < |f| ==> g[k] == f[k] + 1
  {
    seq(|f|, k requires 0 <= k < |f| => f[k] + 1)
  }

  lemma ShiftedHas(f: seq<nat>, i: nat)
    ensures i in Shifted(f) <==> i > 0 && i - 1 in f
  {
    if i in Shifted(f) {
      var k :| 0 <= k < |f| && Shifted(f)[k] == i;
      assert f[k] == i - 1;
    }
    if i > 0 && i - 1 in f {
      var k :| 0 <= k < |f| && f[k] == i - 1;
      assert Shifted(f)[k] == i;
    }
  }

  lemma {:induction false} TextsReadBack(ds: seq<Data>) returns (f: seq<nat>)
    ensures ReadBack(Tells, TextsOf(ds), ds, f)
    decreases |ds|
  {
    if ds == [] {
      f := [];
    } else {
      var g := TextsReadBack(ds[1..]);
      TextsTell(ds[0]);
      f := ReadBackCons(Tells, ds[0], Texts(ds[0]), TextsOf(ds[1..]), ds[1..], g);
      assert ds == [ds[0]] + ds[1..];
    }
  }

  lemma ReadBackCons(tells: Relation, d: Data, ts: seq<string>, texts: seq<string>, ds: seq<Data>, g: seq<nat>)
      returns (f: seq<nat>)
    requires ReadBack(tells, texts, ds, g) && TextFor(tells, ts, d)
    ensures ReadBack(tells, ts + texts, [d] + ds, f)
  {
    f := PicksCons(d, ds, g);
    TellsCons(tells, d, ts, texts, ds, g, f);
  }

  lemma TellsCons(tells: Relation, d: Data, ts: seq<string>, texts: seq<string>, ds: seq<Data>, g: seq<nat>,
                  f: seq<nat>)
    requires AllTell(tells, texts, ds, g) && TextFor(tells, ts, d)
    requires f == if |d| == 4 then [0] + Shifted(g) else Shifted(g)
    ensures AllTell(tells, ts + texts, [d] + ds, f)
  {
    var n := |ts|;
    forall k | 0 <= k < |f|
      ensures TellsAt(tells, (ts + texts)[k], [d] + ds, f[k])
    {
      if k >= n {
        assert f[k] == g[k - n] + 1 && (ts + texts)[k] == texts[k - n];
        TellsShifted(tells, texts[k - n], d, ds, g[k - n]);
      } else {
        assert f[k] == 0 && (ts + texts)[k] == ts[0];
      }
    }
  }

  lemma TellsShifted(tells: Relation, text: string, d: Data, ds: seq<Data>, i: nat)
    requires TellsAt(tells, text, ds, i)
    ensures TellsAt(tells, text, [d] + ds, i + 1)
  {
  }

  lemma PicksCons(d: Data, ds: seq<Data>, g: seq<nat>) returns (f: seq<nat>)
    requires Picks(ds, g)
    ensures Picks([d] + ds, f) && f == if |d| == 4 then [0] + Shifted(g) else Shifted(g)
  {
    f := if |d| == 4 then [0] + Shifted(g) else Shifted(g);
    forall i: nat
      ensures i in f <==> i < |[d] + ds| && |([d] + ds)[i]| == 4
    {
      ShiftedHas(g, i);
    }
  }

  /** The data of all answers of a message. */
  ghost predicate DataAre(msg: seq<Byte>, i: nat, ds: seq<Data>) {
    forall k :: 0 <= k < |ds| ==> DatumIs(msg, i + k, ds[k])
  }

  predicate DatumIs(msg: seq<Byte>, i: nat, d: Data) {
    GetAnswer(msg, i).Some? && GetAnswer(msg, i).value.data == d
  }

  /** What dns_resp_parse yields are the addresses in the answers of the message. */
  lemma {:induction false} AddressesAre(msg: seq<Byte>, i: nat, count: nat) returns (ds: seq<Data>)
    requires i <= count && AddressesFrom(msg, i, count).Some?
    ensures |ds| == count - i && DataAre(msg, i, ds) && AddressesFrom(msg, i, count).value == TextsOf(ds)
    decreases count - i
  {
    ds := [];
    if i < count {
      var rest := AddressesAre(msg, i + 1, count);
      ds := [GetAnswer(msg, i).value.data] + rest;
      assert ds[1..] == rest;
      DataCons(msg, i, rest);
    }
  }

  lemma DataCons(msg: seq<Byte>, i: nat, rest: seq<Data>)
    requires GetAnswer(msg, i).Some? && DataAre(msg, i + 1, rest)
    ensures DataAre(msg, i, [GetAnswer(msg, i).value.data] + rest)
  {
    var ds := [GetAnswer(msg, i).value.data] + rest;
    forall k | 0 <= k < |ds|
      ensures DatumIs(msg, i + k, ds[k])
    {
      if k > 0 { assert DatumIs(msg, i + 1 + (k - 1), rest[k - 1]); }
    }
  }

  /** The texts in the response are those of the four-byte data in the answers of the message. */
  ghost predicate AddressesTold(msg: seq<Byte>, r: Info)
    requires |msg| >= HEADER
  {
    exists ds, f :: |ds| == WordAt(msg, 6) && DataAre(msg, 0, ds) && ReadBack(Tells, r.ipv4, ds, f)
  }

  lemma ResponseTold(msg: seq<Byte>)
    requires Response(msg).Some?
    ensures AddressesTold(msg, Response(msg).value)
  {
    var ds := AddressesAre(msg, 0, WordAt(msg, 6));
    var f := TextsReadBack(ds);
  }

  // ----- the response that was encoded

  /** The texts of the data that are four bytes long, in the order of the records. */
  function Addresses(rs: seq<Record>): seq<string> {
    if rs == [] then [] else Texts(rs[0].data) + Addresses(rs[1..])
  }

  lemma {:induction false} AddressesFound(msg: seq<Byte>, rs: seq<Record>, i: nat)
    requires i <= |rs| && forall k :: 0 <= k < |rs| ==> GetAnswer(msg, k) == Some(ViewRecord(rs[k]))
    ensures AddressesFrom(msg, i, |rs|) == Some(Addresses(rs[i..]))
    decreases |rs| - i
  {
    if i < |rs| {
      AddressesFound(msg, rs, i + 1);
      assert rs[i..][1..] == rs[i + 1..];
    }
  }

  /** An encoded response without error that has a question yields the name in its first question and
      every address in its answers, in order. */
  lemma ResponseOfEncode(m: Message)
    requires 0 < |m.questions| < 0x1_0000 && |m.answers| < 0x1_0000
    requires forall q :: q in m.questions ==> Acceptable(q.name)
    requires forall r :: r in m.answers ==> Acceptable(r.name)
    ensures Response(Encode(m)) ==
      if m.flags / 0x8000 == 1 && m.flags % 16 == 0
      then Some(Info(CString(NameText(m.questions[0].name)), Addresses(m.answers)))
      else None
  {
    EncodedParts(m);
    QuestionOfEncode(m, 0);
    forall k | 0 <= k < |m.answers|
      ensures GetAnswer(Encode(m), k) == Some(ViewRecord(m.answers[k]))
    {
      AnswerOfEncode(m, k);
    }
    AddressesFound(Encode(m), m.answers, 0);
    assert m.answers[0..] == m.answers;
  }
}
