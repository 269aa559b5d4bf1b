/** DNS messages (sections 4.1.1 to 4.1.3 of RFC 1035): parsing a message finds what was encoded. */
module Dns {
  import opened Wrappers
  import opened Bytes
  import opened DnsNames
  import opened Sections

  const HEADER: nat := 12

  type Word16 = n: nat | n < 0x1_0000
  type Word32 = n: nat | n < WORD

  type WireName = n: Name | WellFormed(n) witness Name([], Root)

  /** A data length is a 16-bit word. */
  type Data = d: seq<Byte> | |d| < 0x1_0000

  datatype Question = Question(name: WireName, qtype: Word16, qclass: Word16)

  datatype Record = Record(name: WireName, rtype: Word16, rclass: Word16, ttl: Word32, data: Data)

  /** `behind` is what follows the answers. */
  datatype Message = Message(id: Word16, flags: Word16, nscount: Word16, arcount: Word16,
                             questions: seq<Question>, answers: seq<Record>, behind: seq<Byte>)

  /** What is parsed: the text of a name instead of its wire form. */
  datatype ParsedQuestion = ParsedQuestion(name: seq<Byte>, qtype: Word16, qclass: Word16)

  datatype ParsedRecord = ParsedRecord(name: seq<Byte>, rtype: Word16, rclass: Word16, ttl: Word32, data: Data)

  function U16(n: Word16): (s: seq<Byte>)
    ensures |s| == 2
  {
    [LowByte(n / 256), LowByte(n)]
  }

  function U32(n: Word32): (s: seq<Byte>)
    ensures |s| == 4
  {
    U16(n / 0x1_0000) + U16(n % 0x1_0000)
  }

  /** The words that stand at a position. */
  function WordAt(msg: seq<Byte>, p: nat): Word16
    requires p + 2 <= |msg|
  {
    256 * (msg[p] as nat) + msg[p + 1]
  }

  function LongAt(msg: seq<Byte>, p: nat): Word32
    requires p + 4 <= |msg|
  {
    0x1_0000 * (WordAt(msg, p) as nat) + WordAt(msg, p + 2)
  }

  lemma AtU16(msg: seq<Byte>, p: nat, n: Word16)
    ensures At(msg, p, U16(n)) <==> p + 2 <= |msg| && WordAt(msg, p) == n
  {
    AtSlice(msg, p, U16(n));
    if p + 2 <= |msg| {
      assert msg[p..p + 2] == [msg[p], msg[p + 1]];
      Digits(msg[p], msg[p + 1], n);
    }
  }

  lemma Digits(hi: Byte, lo: Byte, n: Word16)
    ensures 256 * (hi as nat) + lo == n <==> hi == LowByte(n / 256) && lo == LowByte(n)
  {
  }

  lemma AtU32(msg: seq<Byte>, p: nat, n: Word32)
    ensures At(msg, p, U32(n)) <==> p + 4 <= |msg| && LongAt(msg, p) == n
  {
    AtSplit(msg, p, U16(n / 0x1_0000), U16(n % 0x1_0000));
    AtU16(msg, p, n / 0x1_0000);
    AtU16(msg, p + 2, n % 0x1_0000);
    if p + 4 <= |msg| { Halves(WordAt(msg, p), WordAt(msg, p + 2), n); }
  }

  lemma Halves(hi: Word16, lo: Word16, n: Word32)
    ensures 0x1_0000 * (hi as nat) + lo == n <==> hi == n / 0x1_0000 && lo == n % 0x1_0000
  {
  }

  // ----- encoding

  function EncodeQuestion(q: Question): seq<Byte> {
    EncodeName(q.name) + (U16(q.qtype) + U16(q.qclass))
  }

  /** The ten bytes between the name and the data of a record. */
  function Fixed(r: Record): (s: seq<Byte>)
    ensures |s| == 10
  {
    U16(r.rtype) + U16(r.rclass) + U32(r.ttl) + U16(|r.data|)
  }

  function EncodeRecord(r: Record): seq<Byte> {
    EncodeName(r.name) + (Fixed(r) + r.data)
  }

  function EncodeQuestions(qs: seq<Question>): seq<Byte> {
    EncodeList(EncodeQuestion, qs)
  }

  function EncodeRecords(rs: seq<Record>): seq<Byte> {
    EncodeList(EncodeRecord, rs)
  }

  function EncodeHeader(m: Message): (s: seq<Byte>)
    requires |m.questions| < 0x1_0000 && |m.answers| < 0x1_0000
    ensures |s| == HEADER
  {
    U16(m.id) + U16(m.flags) + U16(|m.questions|) + U16(|m.answers|) + U16(m.nscount) + U16(m.arcount)
  }

  function Encode(m: Message): seq<Byte>
    requires |m.questions| < 0x1_0000 && |m.answers| < 0x1_0000
  {
    EncodeHeader(m) + (EncodeQuestions(m.questions) + (EncodeRecords(m.answers) + m.behind))
  }

  // ----- parsing, with the cursor at p

  /** parse_name */
  function ParseName(msg: seq<Byte>, p: nat): (r: Option<(seq<Byte>, nat)>)
    ensures r.Some? ==> p < r.value.1 <= |msg|
  {
    match Parse(msg, p, [])
    case None => None
    case Some((text, q)) => Some((Lowered(text), q))
  }

  /** parse_question: the question, and the position behind it. */
  function ParseQuestion(msg: seq<Byte>, p: nat): (r: Option<(ParsedQuestion, nat)>)
    ensures r.Some? ==> r.value.1 <= |msg|
  {
    match ParseName(msg, p)
    case None => None
    case Some((name, q)) =>
      if q + 4 > |msg| then None
      else Some((ParsedQuestion(name, WordAt(msg, q), WordAt(msg, q + 2)), q + 4))
  }

  /** parse_rr behind the name. */
  function ParseFixed(msg: seq<Byte>, q: nat, name: seq<Byte>): (r: Option<(ParsedRecord, nat)>)
    ensures r.Some? ==> r.value.1 <= |msg|
  {
    if q + 10 > |msg| then None else
    var len := WordAt(msg, q + 8);
    if q + 10 + len > |msg| then None
    else Some((ParsedRecord(name, WordAt(msg, q), WordAt(msg, q + 2), LongAt(msg, q + 4), msg[q + 10..q + 10 + len]),
        q + 10 + len))
  }

  /** parse_rr */
  function ParseRecord(msg: seq<Byte>, p: nat): (r: Option<(ParsedRecord, nat)>)
    ensures r.Some? ==> r.value.1 <= |msg|
  {
    match ParseName(msg, p)
    case None => None
    case Some((name, q)) => ParseFixed(msg, q, name)
  }

  function QuestionParser(msg: seq<Byte>): Parser<ParsedQuestion> {
    (p: nat) => ParseQuestion(msg, p)
  }

  function RecordParser(msg: seq<Byte>): Parser<ParsedRecord> {
    (p: nat) => ParseRecord(msg, p)
  }

  /** dns_get_question */
  function GetQuestion(msg: seq<Byte>, k: nat): Option<ParsedQuestion> {
    if |msg| < HEADER || k >= WordAt(msg, 4) then None else Nth(QuestionParser(msg), HEADER, k)
  }

  /** dns_get_answer */
  function GetAnswer(msg: seq<Byte>, k: nat): Option<ParsedRecord> {
    if |msg| < HEADER || k >= WordAt(msg, 6) then None else
    match Skip(QuestionParser(msg), HEADER, WordAt(msg, 4))
    case None => None
    case Some(p) => Nth(RecordParser(msg), p, k)
  }

  // ----- parsing finds what was encoded

  /** The text of a name: its labels, lowered, with dots between.  A pointer is not followed. */
  function NameText(n: Name): seq<Byte> {
    Lowered(Join(n.labels))
  }

  predicate Acceptable(n: Name) {
    WireSize(n.labels) <= ROOM
  }

  function ViewQuestion(q: Question): ParsedQuestion {
    ParsedQuestion(NameText(q.name), q.qtype, q.qclass)
  }

  function ViewRecord(r: Record): ParsedRecord {
    ParsedRecord(NameText(r.name), r.rtype, r.rclass, r.ttl, r.data)
  }

  lemma TextOfName(n: WireName)
    ensures Text([], n.labels) == Join(n.labels)
  {
    if n.labels != [] {
      TextIsJoin([], n.labels);
      assert Dotted([]) + Join(n.labels) == Join(n.labels);
    }
  }

  lemma ParseNameOfEncode(msg: seq<Byte>, p: nat, n: WireName)
    requires At(msg, p, EncodeName(n))
    ensures ParseName(msg, p) == if Acceptable(n) then Some((NameText(n), p + |EncodeName(n)|)) else None
  {
    NameFits(n.labels);
    ParseOfEncode(msg, p, n, [], p + |EncodeName(n)|);
    TextOfName(n);
  }

  /** The four bytes behind the name of a question. */
  lemma QuestionTail(msg: seq<Byte>, q: nat, a: Word16, b: Word16)
    ensures At(msg, q, U16(a) + U16(b)) <==> q + 4 <= |msg| && WordAt(msg, q) == a && WordAt(msg, q + 2) == b
  {
    AtSplit(msg, q, U16(a), U16(b));
    AtU16(msg, q, a);
    AtU16(msg, q + 2, b);
  }

  /** The bytes behind the name of a record. */
  lemma RecordTail(msg: seq<Byte>, q: nat, r: Record)
    ensures At(msg, q, Fixed(r) + r.data) <==>
      && q + 10 + |r.data| <= |msg|
      && WordAt(msg, q) == r.rtype && WordAt(msg, q + 2) == r.rclass && LongAt(msg, q + 4) == r.ttl
      && WordAt(msg, q + 8) == |r.data| && msg[q + 10..q + 10 + |r.data|] == r.data
  {
    AtSplit(msg, q, Fixed(r), r.data);
    AtSlice(msg, q + 10, r.data);
    AtSplit(msg, q, U16(r.rtype) + U16(r.rclass) + U32(r.ttl), U16(|r.data|));
    AtSplit(msg, q, U16(r.rtype) + U16(r.rclass), U32(r.ttl));
    QuestionTail(msg, q, r.rtype, r.rclass);
    AtU32(msg, q + 4, r.ttl);
    AtU16(msg, q + 8, |r.data|);
  }

  lemma ParseQuestionOfEncode(msg: seq<Byte>, p: nat, q: Question)
    requires At(msg, p, EncodeQuestion(q))
    ensures ParseQuestion(msg, p) ==
      if Acceptable(q.name) then Some((ViewQuestion(q), p + |EncodeQuestion(q)|)) else None
  {
    AtSplit(msg, p, EncodeName(q.name), U16(q.qtype) + U16(q.qclass));
    ParseNameOfEncode(msg, p, q.name);
    QuestionTail(msg, p + |EncodeName(q.name)|, q.qtype, q.qclass);
  }

  lemma ParseRecordOfEncode(msg: seq<Byte>, p: nat, r: Record)
    requires At(msg, p, EncodeRecord(r))
    ensures ParseRecord(msg, p) == if Acceptable(r.name) then Some((ViewRecord(r), p + |EncodeRecord(r)|)) else None
  {
    AtSplit(msg, p, EncodeName(r.name), Fixed(r) + r.data);
    ParseNameOfEncode(msg, p, r.name);
    RecordTail(msg, p + |EncodeName(r.name)|, r);
  }

  lemma QuestionFound(msg: seq<Byte>, x: Question)
    requires Acceptable(x.name)
    ensures Finds(msg, EncodeQuestion, QuestionParser(msg), ViewQuestion, x)
  {
    forall p: nat | At(msg, p, EncodeQuestion(x))
      ensures QuestionParser(msg)(p) == Some((ViewQuestion(x), p + |EncodeQuestion(x)|))
    {
      ParseQuestionOfEncode(msg, p, x);
    }
  }

  lemma RecordFound(msg: seq<Byte>, x: Record)
    requires Acceptable(x.name)
    ensures Finds(msg, EncodeRecord, RecordParser(msg), ViewRecord, x)
  {
    forall p: nat | At(msg, p, EncodeRecord(x))
      ensures RecordParser(msg)(p) == Some((ViewRecord(x), p + |EncodeRecord(x)|))
    {
      ParseRecordOfEncode(msg, p, x);
    }
  }

  /** Where the parts of an encoded message stand. */
  lemma EncodedParts(m: Message)
    requires |m.questions| < 0x1_0000 && |m.answers| < 0x1_0000
    ensures var msg := Encode(m);
      && |msg| >= HEADER
      && WordAt(msg, 2) == m.flags && WordAt(msg, 4) == |m.questions| && WordAt(msg, 6) == |m.answers|
      && At(msg, HEADER, EncodeQuestions(m.questions))
      && At(msg, HEADER + |EncodeQuestions(m.questions)|, EncodeRecords(m.answers))
  {
    var msg := Encode(m);
    var qs, rs := EncodeQuestions(m.questions), EncodeRecords(m.answers);
    WholeStands(msg);
    Behind(msg, 0, msg, EncodeHeader(m), qs + (rs + m.behind), HEADER);
    Behind(msg, HEADER, qs + (rs + m.behind), qs, rs + m.behind, HEADER + |qs|);
    Behind(msg, HEADER + |qs|, rs + m.behind, rs, m.behind, HEADER + |qs| + |rs|);
    HeaderParts(msg, m);
  }

  lemma WholeStands(msg: seq<Byte>)
    ensures At(msg, 0, msg)
  {
    AtSlice(msg, 0, msg);
    assert msg[0..|msg|] == msg;
  }

  lemma Behind(msg: seq<Byte>, p: nat, e: seq<Byte>, a: seq<Byte>, b: seq<Byte>, q: nat)
    requires At(msg, p, e) && e == a + b && q == p + |a|
    ensures At(msg, p, a) && At(msg, q, b)
  {
    AtSplit(msg, p, a, b);
  }

  lemma HeaderParts(msg: seq<Byte>, m: Message)
    requires |m.questions| < 0x1_0000 && |m.answers| < 0x1_0000 && |msg| >= HEADER && At(msg, 0, EncodeHeader(m))
    ensures WordAt(msg, 2) == m.flags && WordAt(msg, 4) == |m.questions| && WordAt(msg, 6) == |m.answers|
  {
    var a := U16(m.id) + U16(m.flags);
    var b := a + U16(|m.questions|);
    var c := b + U16(|m.answers|);
    AtSplit(msg, 0, c + U16(m.nscount), U16(m.arcount));
    AtSplit(msg, 0, c, U16(m.nscount));
    AtSplit(msg, 0, b, U16(|m.answers|));
    AtSplit(msg, 0, a, U16(|m.questions|));
    QuestionTail(msg, 0, m.id, m.flags);
    AtU16(msg, 4, |m.questions|);
    AtU16(msg, 6, |m.answers|);
  }

  lemma SkipQuestions(msg: seq<Byte>, p: nat, qs: seq<Question>, end: nat)
    requires At(msg, p, EncodeQuestions(qs)) && end == p + |EncodeQuestions(qs)|
    requires forall q :: q in qs ==> Acceptable(q.name)
    ensures Skip(QuestionParser(msg), p, |qs|) == Some(end)
  {
    forall x | x in qs
      ensures Finds(msg, EncodeQuestion, QuestionParser(msg), ViewQuestion, x)
    {
      QuestionFound(msg, x);
    }
    SkipOfEncode(msg, EncodeQuestion, QuestionParser(msg), ViewQuestion, p, qs);
  }

  lemma NthQuestion(msg: seq<Byte>, p: nat, qs: seq<Question>, k: nat)
    requires At(msg, p, EncodeQuestions(qs)) && k < |qs| && forall q :: q in qs ==> Acceptable(q.name)
    ensures Nth(QuestionParser(msg), p, k) == Some(ViewQuestion(qs[k]))
  {
    forall x | x in qs
      ensures Finds(msg, EncodeQuestion, QuestionParser(msg), ViewQuestion, x)
    {
      QuestionFound(msg, x);
    }
    NthOfEncode(msg, EncodeQuestion, QuestionParser(msg), ViewQuestion, p, qs, k);
  }

  lemma NthRecord(msg: seq<Byte>, p: nat, rs: seq<Record>, k: nat)
    requires At(msg, p, EncodeRecords(rs)) && k < |rs| && forall r :: r in rs ==> Acceptable(r.name)
    ensures Nth(RecordParser(msg), p, k) == Some(ViewRecord(rs[k]))
  {
    forall x | x in rs ensures Finds(msg, EncodeRecord, RecordParser(msg), ViewRecord, x) { RecordFound(msg, x); }
    NthOfEncode(msg, EncodeRecord, RecordParser(msg), ViewRecord, p, rs, k);
  }

  /** dns_get_question yields the k-th question of an encoded message, and none if there are no more. */
  lemma QuestionOfEncode(m: Message, k: nat)
    requires |m.questions| < 0x1_0000 && |m.answers| < 0x1_0000
    requires forall q :: q in m.questions ==> Acceptable(q.name)
    ensures GetQuestion(Encode(m), k) == if k < |m.questions| then Some(ViewQuestion(m.questions[k])) else None
  {
    EncodedParts(m);
    if k < |m.questions| { NthQuestion(Encode(m), HEADER, m.questions, k); }
  }

  /** dns_get_answer on any message that announces the questions and records that stand in it. */
  lemma AnswerOfParts(msg: seq<Byte>, qs: seq<Question>, rs: seq<Record>, middle: nat, k: nat)
    requires |msg| >= HEADER && WordAt(msg, 4) == |qs| && WordAt(msg, 6) == |rs|
    requires At(msg, HEADER, EncodeQuestions(qs)) && middle == HEADER + |EncodeQuestions(qs)|
    requires At(msg, middle, EncodeRecords(rs))
    requires (forall q :: q in qs ==> Acceptable(q.name)) && (forall r :: r in rs ==> Acceptable(r.name))
    ensures GetAnswer(msg, k) == if k < |rs| then Some(ViewRecord(rs[k])) else None
  {
    SkipQuestions(msg, HEADER, qs, middle);
    if k < |rs| { NthRecord(msg, middle, rs, k); }
  }

  /** dns_get_answer yields the k-th record of an encoded message, whether or not names before it are
      compressed, and none if there are no more. */
  lemma AnswerOfEncode(m: Message, k: nat)
    requires |m.questions| < 0x1_0000 && |m.answers| < 0x1_0000
    requires forall q :: q in m.questions ==> Acceptable(q.name)
    requires forall r :: r in m.answers ==> Acceptable(r.name)
    ensures GetAnswer(Encode(m), k) == if k < |m.answers| then Some(ViewRecord(m.answers[k])) else None
  {
    EncodedParts(m);
    AnswerOfParts(Encode(m), m.questions, m.answers, HEADER + |EncodeQuestions(m.questions)|, k);
  }

  // ----- what is found was encoded

  lemma NameOfParse(msg: seq<Byte>, p: nat) returns (n: WireName)
    requires ParseName(msg, p).Some?
    ensures Acceptable(n) && At(msg, p, EncodeName(n)) && ParseName(msg, p) == Some((NameText(n), p + |EncodeName(n)|))
  {
    n := EncodeOfParse(msg, p, []);
    NameFits(n.labels);
    ParseNameOfEncode(msg, p, n);
  }

  /** The text is that of the name at p, in small letters. */
  ghost predicate Spells(msg: seq<Byte>, p: nat, text: seq<Byte>) {
    exists n: WireName :: At(msg, p, EncodeName(n)) && LowerCase(text, Join(n.labels))
  }

  lemma ParsedSpells(msg: seq<Byte>, p: nat)
    requires ParseName(msg, p).Some?
    ensures Spells(msg, p, ParseName(msg, p).value.0)
  {
    var n := NameOfParse(msg, p);
    LoweredMeans(NameText(n), Join(n.labels));
  }

  lemma QuestionOfParse(msg: seq<Byte>, p: nat) returns (x: Question)
    requires ParseQuestion(msg, p).Some?
    ensures At(msg, p, EncodeQuestion(x)) && ParseQuestion(msg, p) == Some((ViewQuestion(x), p + |EncodeQuestion(x)|))
  {
    var n := NameOfParse(msg, p);
    var q := p + |EncodeName(n)|;
    x := Question(n, WordAt(msg, q), WordAt(msg, q + 2));
    QuestionTail(msg, q, x.qtype, x.qclass);
    AtSplit(msg, p, EncodeName(n), U16(x.qtype) + U16(x.qclass));
  }

  lemma RecordOfParse(msg: seq<Byte>, p: nat) returns (r: Record)
    requires ParseRecord(msg, p).Some?
    ensures At(msg, p, EncodeRecord(r)) && ParseRecord(msg, p) == Some((ViewRecord(r), p + |EncodeRecord(r)|))
  {
    var n := NameOfParse(msg, p);
    r := RecordBehind(msg, p, n, p + |EncodeName(n)|);
  }

  lemma RecordBehind(msg: seq<Byte>, p: nat, n: WireName, q: nat) returns (r: Record)
    requires At(msg, p, EncodeName(n)) && q == p + |EncodeName(n)| && ParseFixed(msg, q, NameText(n)).Some?
    ensures At(msg, p, EncodeRecord(r))
    ensures ParseFixed(msg, q, NameText(n)) == Some((ViewRecord(r), p + |EncodeRecord(r)|))
  {
    r := Record(n, WordAt(msg, q), WordAt(msg, q + 2), LongAt(msg, q + 4), msg[q + 10..q + 10 + WordAt(msg, q + 8)]);
    RecordTail(msg, q, r);
    AtSplit(msg, p, EncodeName(n), Fixed(r) + r.data);
  }

  lemma QuestionsSound(msg: seq<Byte>)
    ensures Sound(msg, EncodeQuestion, QuestionParser(msg), ViewQuestion)
  {
    forall p: nat | QuestionParser(msg)(p).Some?
      ensures exists x :: IsEntry(msg, EncodeQuestion, QuestionParser(msg), ViewQuestion, p, x)
    {
      var x := QuestionOfParse(msg, p);
      assert IsEntry(msg, EncodeQuestion, QuestionParser(msg), ViewQuestion, p, x);
    }
  }

  lemma RecordsSound(msg: seq<Byte>)
    ensures Sound(msg, EncodeRecord, RecordParser(msg), ViewRecord)
  {
    forall p: nat | RecordParser(msg)(p).Some?
      ensures exists x :: IsEntry(msg, EncodeRecord, RecordParser(msg), ViewRecord, p, x)
    {
      var x := RecordOfParse(msg, p);
      assert IsEntry(msg, EncodeRecord, RecordParser(msg), ViewRecord, p, x);
    }
  }

  /** Whatever dns_get_answer yields is in the message: behind the header and as many questions as it
      announces, as record k, and within the bytes there are. */
  lemma AnswerIsEncoded(msg: seq<Byte>, k: nat) returns (qs: seq<Question>, rs: seq<Record>, middle: nat)
    requires GetAnswer(msg, k).Some?
    ensures |msg| >= HEADER && k < WordAt(msg, 6) && |qs| == WordAt(msg, 4) && |rs| == k + 1
    ensures At(msg, HEADER, EncodeQuestions(qs)) && middle == HEADER + |EncodeQuestions(qs)|
    ensures At(msg, middle, EncodeRecords(rs))
    ensures GetAnswer(msg, k) == Some(ViewRecord(rs[k]))
  {
    QuestionsSound(msg);
    RecordsSound(msg);
    middle := Skip(QuestionParser(msg), HEADER, WordAt(msg, 4)).value;
    qs, rs := EncodeOfBoth(msg, EncodeQuestion, QuestionParser(msg), ViewQuestion,
                           EncodeRecord, RecordParser(msg), ViewRecord, HEADER, WordAt(msg, 4), middle, k);
  }
}
