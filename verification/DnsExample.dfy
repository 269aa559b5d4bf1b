/** A response as it comes from the network, byte by byte, and what is made of it. */
module DnsExample {
  import opened Wrappers
  import opened Bytes
  import opened DnsNames
  import opened Sections
  import opened Dns
  import opened DnsAddress
  import opened DnsResponse

  /** One question, for WWW.a, of type A and class IN. */
  const ASKED: seq<Byte> := [3, 87, 87, 87, 1, 97, 0, 0, 1, 0, 1]

  /** One answer: the name by a pointer, type A, class IN, a minute to live, and an address. */
  const ANSWERED: seq<Byte> := [192, 12, 0, 1, 0, 1, 0, 0, 0, 60, 0, 4, 192, 168, 0, 10]

  const HEAD: seq<Byte> := [18, 52, 129, 128, 0, 1, 0, 1, 0, 0, 0, 0]

  function TheQuestion(): Question {
    assert forall l :: l in [[87, 87, 87], [97]] ==> l == [87, 87, 87] || l == [97];
    Question(Name([[87, 87, 87], [97]], Root), 1, 1)
  }

  function TheRecord(): Record {
    Record(Name([], Pointer(192, 12)), 1, 1, 60, [192, 168, 0, 10])
  }

  function TheMessage(): Message {
    Message(0x1234, 0x8180, 0, 0, [TheQuestion()], [TheRecord()], [])
  }

  lemma QuestionBytes()
    ensures EncodeQuestion(TheQuestion()) == ASKED
  {
    var a: Label, b: Label := [87, 87, 87], [97];
    assert [a, b][1..] == [b] && [b][1..] == [];
    assert EncodeLabels([]) == [];
    assert EncodeLabels([b]) == [1, 97];
    assert EncodeLabels([a, b]) == [3, 87, 87, 87, 1, 97];
  }

  lemma RecordBytes()
    ensures EncodeRecord(TheRecord()) == ANSWERED
  {
    assert EncodeName(TheRecord().name) == [192, 12];
    assert Fixed(TheRecord()) == [0, 1, 0, 1, 0, 0, 0, 60, 0, 4];
  }

  lemma MessageBytes()
    ensures Encode(TheMessage()) == HEAD + ASKED + ANSWERED
  {
    QuestionBytes();
    RecordBytes();
    OneEntry(EncodeQuestion, TheQuestion());
    OneEntry(EncodeRecord, TheRecord());
    assert EncodeHeader(TheMessage()) == HEAD;
  }

  lemma OneEntry<T>(encode: T -> seq<Byte>, x: T)
    ensures EncodeList(encode, [x]) == encode(x)
  {
    assert [x][1..] == [];
    assert EncodeList(encode, []) == [];
  }

  lemma DecimalsOfExample()
    ensures Decimal(192) == "192" && Decimal(168) == "168" && Decimal(0) == "0" && Decimal(10) == "10"
  {
    assert Decimal(19) == "19" && Decimal(16) == "16";
  }

  lemma JoinOfExample()
    ensures Domains.Join(["192", "168", "0", "10"]) == "192.168.0.10"
  {
    var p := ["192", "168", "0", "10"];
    assert p[1..] == ["168", "0", "10"] && p[1..][1..] == ["0", "10"] && ["0", "10"][1..] == ["10"];
    assert Domains.Join(["10"]) == "10";
    assert Domains.Join(["0", "10"]) == "0.10";
    assert Domains.Join(["168", "0", "10"]) == "168.0.10";
  }

  lemma AddressOfExample()
    ensures AddressText([192, 168, 0, 10]) == "192.168.0.10"
  {
    DecimalsOfExample();
    JoinOfExample();
  }

  lemma AddressesOfExample()
    ensures Addresses([TheRecord()]) == ["192.168.0.10"]
  {
    AddressOfExample();
    assert [TheRecord()][1..] == [];
    assert Addresses([]) == [];
  }

  lemma NameOfExample()
    ensures CString(NameText(TheQuestion().name)) == [119, 119, 119, 46, 97]
  {
    var a: Label, b: Label := [87, 87, 87], [97];
    assert [a, b][1..] == [b];
    assert Join([a, b]) == [87, 87, 87, 46, 97];
    var text: seq<Byte> := [119, 119, 119, 46, 97];
    assert Lowered([87, 87, 87, 46, 97]) == text;
    CStringIs(text, 5);
    assert text[..5] == text;
  }

  /** The response is understood: www.a has the address 192.168.0.10. */
  lemma ExampleResponse()
    ensures Response(HEAD + ASKED + ANSWERED) == Some(Info([119, 119, 119, 46, 97], ["192.168.0.10"]))
  {
    MessageBytes();
    assert WireSize([]) == 0 && WireSize([[97]]) == 2 && WireSize([[87, 87, 87], [97]][1..]) == 2;
    assert Acceptable(TheQuestion().name) && Acceptable(TheRecord().name);
    ResponseOfEncode(TheMessage());
    NameOfExample();
    AddressesOfExample();
  }
}
